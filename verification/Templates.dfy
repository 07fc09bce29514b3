/**
 A template's {{variables}} while it is translated: each becomes a numbered marker, and the markers become the
 variables again, or the translation is refused.
 */
module Templates {
  import opened Collections
  import opened Common
  import opened Decimal
  import opened Scanning
  import opened Weaving

  // ---------- What the two patterns match at the front of a text (0: no match) ----------

  predicate IsNoBrace(c: char) {
    c != '{' && c != '}'
  }

  // Two opening braces, anything without braces, two closing ones.
  function VariableAt(s: string): (n: nat)
    ensures n <= |s| && (n > 0 ==> n >= 4 && s[0] == '{')
  {
    if |s| < 4 || s[0] != '{' || s[1] != '{' then 0
    else
      var run := RunOf(IsNoBrace, s[2..]);
      if run + 4 <= |s| && s[run + 2] == '}' && s[run + 3] == '}' then run + 4 else 0
  }

  // The digits of every script with decimal digits count: the value of a character, or none.
  type Numerals = char -> Option<nat>

  ghost predicate IsNumerals(num: Numerals) {
    && (forall c :: IsDigit(c) ==> num(c) == Some(c as int - '0' as int))
    && num(']').None? && num('[').None? && num('{').None?
  }

  function IsNumeral(num: Numerals): char -> bool {
    c => num(c).Some?
  }

  const OPEN := "[VAR_"

  function MarkerAt(num: Numerals, s: string): (n: nat)
    ensures n <= |s|
  {
    if !(OPEN <= s) then 0
    else
      var run := RunOf(IsNumeral(num), s[5..]);
      if run > 0 && run + 6 <= |s| && s[run + 5] == ']' then run + 6 else 0
  }

  function ValueIn(num: Numerals, s: string): nat
    requires forall i :: 0 <= i < |s| ==> num(s[i]).Some?
  {
    if s == [] then 0 else ValueIn(num, s[..|s| - 1]) * 10 + num(s[|s| - 1]).value
  }

  function NumberAt(num: Numerals, s: string): nat
    requires MarkerAt(num, s) > 0
  {
    ValueIn(num, s[5..MarkerAt(num, s) - 1])
  }

  function Marker(k: nat): string {
    OPEN + Digits(k) + "]"
  }

  // ---------- Protecting ----------

  function Variables(body: string): seq<string> {
    if body == [] then []
    else
      var n := VariableAt(body);
      if n > 0 then [body[..n]] + Variables(body[n..]) else Variables(body[1..])
  }

  // The body with its variables as markers, numbered on from k.
  function Marked(body: string, k: nat): string {
    if body == [] then []
    else
      var n := VariableAt(body);
      if n > 0 then Marker(k + 1) + Marked(body[n..], k + 1) else [body[0]] + Marked(body[1..], k)
  }

  method ProtectVariables(body: string) returns (text: string, variables: seq<string>)
    ensures text == Marked(body, 0) && variables == Variables(body)
  {
    text, variables := "", [];
    var rest := body;
    assert "" + Marked(body, 0) == Marked(body, 0) && [] + Variables(body) == Variables(body);
    while rest != []
      invariant Protected(text, variables, rest) == (Marked(body, 0), Variables(body))
      decreases |rest|
    {
      var n := VariableAt(rest);
      ProtectedStep(text, variables, rest);
      if n > 0 {
        variables := variables + [rest[..n]];
        text := text + Marker(|variables|);
      } else {
        text := text + [rest[0]];
      }
      rest := rest[if n > 0 then n else 1..];
    }
  }

  // The marked text and the variables, of what is behind and of what is still to come.
  ghost function Protected(text: string, variables: seq<string>, rest: string): (string, seq<string>) {
    (text + Marked(rest, |variables|), variables + Variables(rest))
  }

  lemma ProtectedStep(text: string, variables: seq<string>, rest: string)
    requires rest != []
    ensures var n := VariableAt(rest);
            Protected(text, variables, rest)
            == if n > 0 then Protected(text + Marker(|variables| + 1), variables + [rest[..n]], rest[n..])
               else Protected(text + [rest[0]], variables, rest[1..])
  {
    var n := VariableAt(rest);
    if n > 0 {
      Associates(text, Marker(|variables| + 1), Marked(rest[n..], |variables| + 1));
      Associates(variables, [rest[..n]], Variables(rest[n..]));
    } else {
      Associates(text, [rest[0]], Marked(rest[1..], |variables|));
    }
  }

  // ---------- What is protected ----------

  // Two opening braces, no brace, two closing ones.
  predicate IsVariable(v: string) {
    && |v| >= 4 && v[0] == '{' && v[1] == '{' && v[|v| - 2] == '}' && v[|v| - 1] == '}'
    && forall i :: 2 <= i < |v| - 2 ==> v[i] != '{' && v[i] != '}'
  }

  lemma VariableAtExactly(s: string, n: int)
    requires 0 < n <= |s|
    ensures VariableAt(s) == n <==> IsVariable(s[..n])
  {
    if VariableAt(s) == n {
      assert forall i :: 0 <= i < n - 4 ==> IsNoBrace(s[2..][i]) && s[2..][i] == s[i + 2];
      assert forall i :: 0 <= i < n ==> s[..n][i] == s[i];
    }
    if IsVariable(s[..n]) {
      assert forall i :: 0 <= i < n ==> s[..n][i] == s[i];
      assert forall i :: 0 <= i < n - 4 ==> s[2..][i] == s[..n][i + 2] && IsNoBrace(s[2..][i]);
      assert s[2..][n - 4] == '}';
      RunIs(IsNoBrace, s[2..], n - 4);
    }
  }

  lemma VariablesAreApart(s: string, n: int, a: int, b: int)
    requires 0 < n <= |s| && IsVariable(s[..n]) && 0 < a < n && a < b <= |s|
    ensures !IsVariable(s[a..b])
  {
    assert forall i :: 0 <= i < n ==> s[..n][i] == s[i];
    assert forall i :: 0 <= i < b - a ==> s[a..b][i] == s[a + i];
  }

  lemma VariableAtFinds()
    ensures Finds(VariableAt, IsVariable)
  {
    forall s: string, n: int {:trigger s[..n]} | 0 < n <= |s| ensures VariableAt(s) == n <==> IsVariable(s[..n]) {
      VariableAtExactly(s, n);
    }
    forall s: string, n: int, a: int, b: int {:trigger s[..n], s[a..b]}
      | 0 < n <= |s| && IsVariable(s[..n]) && 0 < a < n && a < b <= |s| ensures !IsVariable(s[a..b])
    {
      VariablesAreApart(s, n, a, b);
    }
  }

  function NumberedMarkers(k: nat, n: nat): (markers: seq<string>)
    ensures |markers| == n && forall i :: 0 <= i < n ==> markers[i] == Marker(k + 1 + i)
    decreases n
  {
    if n == 0 then [] else [Marker(k + 1)] + NumberedMarkers(k + 1, n - 1)
  }

  // Up to the next variable the text stays.
  lemma {:induction false} StaysUpTo(body: string, from: nat, to: nat, k: nat)
    requires from <= to <= |body| && forall i :: from <= i < to ==> VariableAt(body[i..]) == 0
    ensures Marked(body[from..], k) == body[from..to] + Marked(body[to..], k)
    ensures Variables(body[from..]) == Variables(body[to..])
    decreases |body| - from
  {
    if from < to {
      StaysUpTo(body, from + 1, to, k);
      var rest := Marked(body[to..], k);
      assert VariableAt(body[from..]) == 0 && body[from..][1..] == body[from + 1..] && body[from..][0] == body[from];
      Associates([body[from]], body[from + 1..to], rest);
      assert body[from..to] == [body[from]] + body[from + 1..to];
    } else {
      assert body[from..to] == [] && [] + Marked(body[to..], k) == Marked(body[to..], k);
    }
  }

  lemma StartsAmongThem(body: string, from: nat, ends: seq<(int, int)>, i: nat)
    requires from <= i < |body| && AreAllFrom(IsVariable, body, from, ends) && VariableAt(body[i..]) > 0
    ensures ends != [] && ends[0].0 <= i
  {
    var n := VariableAt(body[i..]);
    VariableAtExactly(body[i..], n);
    assert body[i..][..n] == body[i..i + n];
    assert (i, i + n) in ends;
  }

  lemma NoneStartsBefore(body: string, from: nat, ends: seq<(int, int)>, i: nat)
    requires from <= i < |body| && AreAllFrom(IsVariable, body, from, ends) && (ends != [] ==> i < ends[0].0)
    ensures VariableAt(body[i..]) == 0
  {
    if VariableAt(body[i..]) > 0 {
      StartsAmongThem(body, from, ends, i);
    }
  }

  lemma NoneUpToFirst(body: string, from: nat, ends: seq<(int, int)>)
    requires from <= |body| && AreAllFrom(IsVariable, body, from, ends)
    ensures forall i :: from <= i < (if ends == [] then |body| else ends[0].0) ==> VariableAt(body[i..]) == 0
  {
    forall i: nat | from <= i < (if ends == [] then |body| else ends[0].0) ensures VariableAt(body[i..]) == 0 {
      NoneStartsBefore(body, from, ends, i);
    }
  }

  lemma AtVariable(body: string, a: nat, b: nat, k: nat)
    requires a < b <= |body| && IsVariable(body[a..b])
    ensures Marked(body[a..], k) == Marker(k + 1) + Marked(body[b..], k + 1)
    ensures Variables(body[a..]) == [body[a..b]] + Variables(body[b..])
  {
    assert body[a..][..b - a] == body[a..b] && body[a..][b - a..] == body[b..];
    VariableAtExactly(body[a..], b - a);
  }

  lemma FirstVariable(body: string, from: nat, ends: seq<(int, int)>, k: nat)
    requires from <= |body| && AreAllFrom(IsVariable, body, from, ends) && ends != []
    ensures var (a, b) := ends[0];
            && Marked(body[from..], k) == body[from..a] + (Marker(k + 1) + Marked(body[b..], k + 1))
            && Variables(body[from..]) == [body[a..b]] + Variables(body[b..])
  {
    NoneUpToFirst(body, from, ends);
    StaysUpTo(body, from, ends[0].0, k);
    AtVariable(body, ends[0].0, ends[0].1, k);
  }

  lemma {:induction false} MarkedIsWoven(body: string, from: nat, ends: seq<(int, int)>, k: nat)
    requires from <= |body| && AreAllFrom(IsVariable, body, from, ends)
    ensures Marked(body[from..], k) == Woven(Gaps(body, from, ends), NumberedMarkers(k, |ends|))
    decreases |ends|
  {
    if ends == [] {
      NoneUpToFirst(body, from, ends);
      StaysUpTo(body, from, |body|, k);
      assert body[from..|body|] + "" == body[from..];
    } else {
      var (a, b) := ends[0];
      FirstVariable(body, from, ends, k);
      AllBehind(IsVariable, body, from, ends);
      MarkedIsWoven(body, b, ends[1..], k + 1);
      WovenOnward(body[from..a], Gaps(body, b, ends[1..]), Marker(k + 1), NumberedMarkers(k + 1, |ends| - 1));
    }
  }

  lemma {:induction false} VariablesAreCuts(body: string, from: nat, ends: seq<(int, int)>)
    requires from <= |body| && AreAllFrom(IsVariable, body, from, ends)
    ensures Variables(body[from..]) == Cuts(body, ends)
    decreases |ends|
  {
    if ends == [] {
      NoneUpToFirst(body, from, ends);
      StaysUpTo(body, from, |body|, 0);
    } else {
      FirstVariable(body, from, ends, 0);
      AllBehind(IsVariable, body, from, ends);
      VariablesAreCuts(body, ends[0].1, ends[1..]);
      CutsOnward(body, ends);
    }
  }

  /**
   The variables taken out are all stretches of that shape, in order; the text that goes to the translator is what
   lies around them, none of it holding such a stretch, with the markers 1, 2, 3 in their places.
   */
  lemma ProtectsAllVariables(body: string) returns (ends: seq<(int, int)>)
    ensures AreAllFrom(IsVariable, body, 0, ends) && Variables(body) == Cuts(body, ends)
    ensures var gaps := Gaps(body, 0, ends);
            && Marked(body, 0) == Woven(gaps, NumberedMarkers(0, |ends|))
            && forall i :: 0 <= i < |gaps| ==> !HoldsPiece(IsVariable, gaps[i])
  {
    ends := Ends(VariableAt, body, 0);
    VariableAtFinds();
    EndsAreAll(VariableAt, IsVariable, body, 0);
    VariablesAreCuts(body, 0, ends);
    MarkedIsWoven(body, 0, ends, 0);
    assert body[0..] == body;
    forall i | 0 <= i <= |ends| ensures !HoldsPiece(IsVariable, Gaps(body, 0, ends)[i]) {
      NoneInGaps(IsVariable, body, 0, ends, i);
    }
  }

  // ---------- Restoring ----------

  // The numbers of a text's markers, in reading order.
  function Found(num: Numerals, s: string): seq<nat> {
    if s == [] then []
    else
      var n := MarkerAt(num, s);
      if n > 0 then [NumberAt(num, s)] + Found(num, s[n..]) else Found(num, s[1..])
  }

  predicate AreNumbered(found: seq<nat>, n: nat) {
    forall i :: 0 <= i < |found| ==> 0 < found[i] <= n
  }

  function Filled(num: Numerals, s: string, variables: seq<string>): string
    requires AreNumbered(Found(num, s), |variables|)
  {
    if s == [] then []
    else
      var n := MarkerAt(num, s);
      assert n > 0 ==> Found(num, s)[0] == NumberAt(num, s) && Found(num, s)[1..] == Found(num, s[n..]);
      if n > 0 then variables[NumberAt(num, s) - 1] + Filled(num, s[n..], variables)
      else [s[0]] + Filled(num, s[1..], variables)
  }

  function From(k: nat, n: nat): (ks: seq<nat>)
    ensures |ks| == n && forall j :: 0 <= j < n ==> ks[j] == k + 1 + j
  {
    seq(n, j => k + 1 + j)
  }

  lemma FromStep(k: nat, n: nat)
    requires n > 0
    ensures multiset(From(k, n)) == multiset{k + 1} + multiset(From(k + 1, n - 1))
  {
    assert From(k, n) == [k + 1] + From(k + 1, n - 1);
  }

  // Sorted, the numbers are 1 to n: the same numbers, each as often.
  predicate IsPermutation(found: seq<nat>, n: nat) {
    multiset(found) == multiset(From(0, n))
  }

  lemma NumbersAreInRange(found: seq<nat>, n: nat)
    requires IsPermutation(found, n)
    ensures AreNumbered(found, n)
  {
    forall i | 0 <= i < |found| ensures 0 < found[i] <= n {
      assert found[i] in multiset(found);
      assert found[i] in multiset(From(0, n));
    }
  }

  function Restored(num: Numerals, s: string, variables: seq<string>): Option<string> {
    if !IsPermutation(Found(num, s), |variables|) then None
    else
      NumbersAreInRange(Found(num, s), |variables|);
      Some(Filled(num, s, variables))
  }

  // ---------- Markers in the marked text ----------

  lemma MarkerShape(num: Numerals, s: string)
    requires IsNumerals(num) && MarkerAt(num, s) > 0
    ensures s[0] == '[' && forall j :: 1 <= j < MarkerAt(num, s) ==> s[j] != '[' && s[j] != '{'
  {
    var n := MarkerAt(num, s);
    forall j | 1 <= j < n ensures s[j] != '[' && s[j] != '{' {
      if j < 5 {
        assert s[j] == OPEN[j];
      } else if j < n - 1 {
        assert IsNumeral(num)(s[5..][j - 5]);
      }
    }
  }

  lemma PrefixDecides(num: Numerals, s: string, t: string)
    requires IsNumerals(num) && MarkerAt(num, s) > 0 && s[..MarkerAt(num, s)] <= t
    ensures MarkerAt(num, t) == MarkerAt(num, s) && NumberAt(num, t) == NumberAt(num, s)
  {
    var n := MarkerAt(num, s);
    assert forall i :: 0 <= i < n ==> t[i] == s[..n][i];
    assert t[..5] == s[..5] == OPEN;
    forall i | 0 <= i < n - 6 ensures IsNumeral(num)(t[5..][i]) {
      assert t[5..][i] == s[5..][i];
    }
    assert t[5..][n - 6] == ']';
    RunIs(IsNumeral(num), t[5..], n - 6);
    assert t[5..n - 1] == s[5..n - 1];
  }

  lemma {:induction false} DigitsAreRead(num: Numerals, s: string)
    requires IsNumerals(num) && AllDigits(s)
    ensures forall i :: 0 <= i < |s| ==> num(s[i]).Some?
    ensures ValueIn(num, s) == Value(s)
  {
    if s != [] {
      DigitsAreRead(num, s[..|s| - 1]);
    }
  }

  lemma MarkerIsFound(num: Numerals, k: nat, rest: string)
    requires IsNumerals(num)
    ensures MarkerAt(num, Marker(k) + rest) == |Marker(k)| && NumberAt(num, Marker(k) + rest) == k
  {
    var s, d := Marker(k) + rest, Digits(k);
    DigitsAreRead(num, d);
    ValueOfDigits(k);
    assert s[..5] == OPEN && s[5..] == d + "]" + rest;
    assert forall i :: 0 <= i < |d| ==> s[5..][i] == d[i];
    RunIs(IsNumeral(num), s[5..], |d|);
    assert s[5..|Marker(k)| - 1] == d;
  }

  // Up to its next variable the marked text is the body.
  lemma {:induction false} PlainUpTo(body: string, k: nat, m: nat)
    requires m <= |body| && forall j :: 0 <= j < m ==> body[j] != '{'
    ensures Marked(body, k) == body[..m] + Marked(body[m..], k)
  {
    if m > 0 {
      PlainUpTo(body[1..], k, m - 1);
      JoinAgain(body[0], body[1..], m, Marked(body[m..], k));
      assert body == [body[0]] + body[1..];
    }
  }

  lemma NoVariableAt(body: string, k: nat)
    requires Marked(body, k) != [] && Marked(body, k)[0] != '['
    ensures VariableAt(body) == 0 && body != []
  {
    assert Marker(k + 1)[0] == '[';
  }

  lemma {:induction false} SameUpTo(body: string, k: nat, m: nat)
    requires body != [] && VariableAt(body) == 0 && 1 <= m <= |Marked(body, k)|
    requires forall j :: 1 <= j < m ==> Marked(body, k)[j] != '['
    ensures m <= |body| && Marked(body, k) == body[..m] + Marked(body[m..], k)
  {
    var rest, marked := body[1..], Marked(body[1..], k);
    assert body == [body[0]] + rest && Marked(body, k) == [body[0]] + marked;
    if m > 1 {
      assert forall j :: 0 <= j < m - 1 ==> marked[j] == Marked(body, k)[j + 1];
      NoVariableAt(rest, k);
      SameUpTo(rest, k, m - 1);
      assert marked == rest[..m - 1] + Marked(rest[m - 1..], k);
      JoinAgain(body[0], rest, m, Marked(rest[m - 1..], k));
    }
  }

  lemma JoinAgain(c: char, rest: string, m: nat, end: string)
    requires 1 <= m <= |rest| + 1
    ensures [c] + (rest[..m - 1] + end) == ([c] + rest)[..m] + end && rest[m - 1..] == ([c] + rest)[m..]
  {
  }

  // Where no variable starts, the marked text has a marker exactly where the body has the same one.
  lemma SameMarker(num: Numerals, body: string, k: nat)
    requires IsNumerals(num) && body != [] && VariableAt(body) == 0
    ensures var n, s := MarkerAt(num, body), Marked(body, k);
            && MarkerAt(num, s) == n
            && (n > 0 ==> NumberAt(num, s) == NumberAt(num, body) && s == body[..n] + Marked(body[n..], k))
  {
    var n, s := MarkerAt(num, body), Marked(body, k);
    if n > 0 {
      MarkerShape(num, body);
      PlainUpTo(body, k, n);
      PrefixDecides(num, body, s);
    } else if MarkerAt(num, s) > 0 {
      MarkerShape(num, s);
      SameUpTo(body, k, MarkerAt(num, s));
      PrefixDecides(num, s, body);
    }
  }

  // ---------- Restoring what was protected ----------

  // The numbers of the markers the body itself holds outside its variables.
  function Literal(num: Numerals, body: string): seq<nat> {
    if body == [] then []
    else
      var n, m := VariableAt(body), MarkerAt(num, body);
      if n > 0 then Literal(num, body[n..])
      else if m > 0 then [NumberAt(num, body)] + Literal(num, body[m..])
      else Literal(num, body[1..])
  }

  lemma FoundAtMarker(num: Numerals, k: nat, rest: string)
    requires IsNumerals(num)
    ensures Found(num, Marker(k) + rest) == [k] + Found(num, rest)
    ensures |Marker(k)| > 0
  {
    MarkerIsFound(num, k, rest);
    assert (Marker(k) + rest)[|Marker(k)|..] == rest;
  }

  // A marker the body holds splits no variable from the rest.
  lemma {:induction false} VariablesAfterMarker(num: Numerals, body: string, m: nat)
    requires m <= |body| && forall j :: 0 <= j < m ==> body[j] != '{'
    ensures Variables(body) == Variables(body[m..])
  {
    if m > 0 {
      VariablesAfterMarker(num, body[1..], m - 1);
      assert body[1..][m - 1..] == body[m..];
    }
  }

  ghost predicate IsFoundMarked(num: Numerals, body: string, k: nat) {
    multiset(Found(num, Marked(body, k))) == multiset(Literal(num, body)) + multiset(From(k, |Variables(body)|))
  }

  lemma FoundAtVariable(num: Numerals, body: string, k: nat)
    requires IsNumerals(num) && VariableAt(body) > 0 && IsFoundMarked(num, body[VariableAt(body)..], k + 1)
    ensures IsFoundMarked(num, body, k)
  {
    var rest := body[VariableAt(body)..];
    FoundAtMarker(num, k + 1, Marked(rest, k + 1));
    FromStep(k, |Variables(body)|);
  }

  lemma FoundAtLiteral(num: Numerals, body: string, k: nat)
    requires IsNumerals(num) && body != [] && VariableAt(body) == 0 && MarkerAt(num, body) > 0
    requires IsFoundMarked(num, body[MarkerAt(num, body)..], k)
    ensures IsFoundMarked(num, body, k)
  {
    var m := MarkerAt(num, body);
    SameMarker(num, body, k);
    MarkerShape(num, body);
    VariablesAfterMarker(num, body, m);
    assert Marked(body, k)[m..] == Marked(body[m..], k);
    assert Found(num, Marked(body, k)) == [NumberAt(num, body)] + Found(num, Marked(body[m..], k));
    assert Literal(num, body) == [NumberAt(num, body)] + Literal(num, body[m..]);
  }

  lemma FoundAtLetter(num: Numerals, body: string, k: nat)
    requires IsNumerals(num) && body != [] && VariableAt(body) == 0 && MarkerAt(num, body) == 0
    requires IsFoundMarked(num, body[1..], k)
    ensures IsFoundMarked(num, body, k)
  {
    SameMarker(num, body, k);
    assert Marked(body, k)[1..] == Marked(body[1..], k);
  }

  // The marked text's markers: the numbered ones, and the body's own.
  lemma {:induction false} FoundMarked(num: Numerals, body: string, k: nat)
    requires IsNumerals(num)
    ensures IsFoundMarked(num, body, k)
    decreases |body|
  {
    if body == [] {
    } else if VariableAt(body) > 0 {
      FoundMarked(num, body[VariableAt(body)..], k + 1);
      FoundAtVariable(num, body, k);
    } else if MarkerAt(num, body) > 0 {
      FoundMarked(num, body[MarkerAt(num, body)..], k);
      FoundAtLiteral(num, body, k);
    } else {
      FoundMarked(num, body[1..], k);
      FoundAtLetter(num, body, k);
    }
  }

  predicate FitsFrom(num: Numerals, body: string, k: nat, variables: seq<string>) {
    && k + |Variables(body)| <= |variables| && variables[k..k + |Variables(body)|] == Variables(body)
    && AreNumbered(Found(num, Marked(body, k)), |variables|)
  }

  lemma FitsAfterVariable(num: Numerals, body: string, k: nat, variables: seq<string>)
    requires IsNumerals(num) && VariableAt(body) > 0 && FitsFrom(num, body, k, variables)
    ensures var n := VariableAt(body);
            && FitsFrom(num, body[n..], k + 1, variables)
            && Filled(num, Marked(body, k), variables) == body[..n] + Filled(num, Marked(body[n..], k + 1), variables)
  {
    var n := VariableAt(body);
    var marked := Marked(body[n..], k + 1);
    FoundAtMarker(num, k + 1, marked);
    MarkerIsFound(num, k + 1, marked);
    assert Marked(body, k)[|Marker(k + 1)|..] == marked;
    assert Found(num, Marked(body, k))[1..] == Found(num, marked);
    assert variables[k] == variables[k..k + |Variables(body)|][0] == body[..n];
    assert variables[k + 1..k + 1 + |Variables(body[n..])|] == Variables(body)[1..];
  }

  lemma FitsAfterLetter(num: Numerals, body: string, k: nat, variables: seq<string>)
    requires IsNumerals(num) && body != [] && VariableAt(body) == 0 && MarkerAt(num, body) == 0
    requires FitsFrom(num, body, k, variables)
    ensures FitsFrom(num, body[1..], k, variables)
    ensures Filled(num, Marked(body, k), variables) == [body[0]] + Filled(num, Marked(body[1..], k), variables)
  {
    SameMarker(num, body, k);
    assert Marked(body, k)[1..] == Marked(body[1..], k);
  }

  // With no marker of its own, the body comes back from its marked text.
  lemma {:induction false} FilledMarked(num: Numerals, body: string, k: nat, variables: seq<string>)
    requires IsNumerals(num) && Literal(num, body) == [] && FitsFrom(num, body, k, variables)
    ensures Filled(num, Marked(body, k), variables) == body
    decreases |body|, 1
  {
    if body == [] {
    } else if VariableAt(body) > 0 {
      FilledAtVariable(num, body, k, variables);
    } else {
      FilledAtLetter(num, body, k, variables);
    }
  }

  lemma {:induction false} FilledAtVariable(num: Numerals, body: string, k: nat, variables: seq<string>)
    requires IsNumerals(num) && Literal(num, body) == [] && FitsFrom(num, body, k, variables) && VariableAt(body) > 0
    ensures Filled(num, Marked(body, k), variables) == body
    decreases |body|, 0
  {
    var rest := body[VariableAt(body)..];
    FitsAfterVariable(num, body, k, variables);
    assert Literal(num, rest) == [];
    FilledMarked(num, rest, k + 1, variables);
    Rejoined(body, VariableAt(body));
  }

  lemma {:induction false} FilledAtLetter(num: Numerals, body: string, k: nat, variables: seq<string>)
    requires IsNumerals(num) && Literal(num, body) == [] && FitsFrom(num, body, k, variables)
    requires body != [] && VariableAt(body) == 0
    ensures Filled(num, Marked(body, k), variables) == body
    decreases |body|, 0
  {
    FitsAfterLetter(num, body, k, variables);
    FilledMarked(num, body[1..], k, variables);
    Rejoined(body, 1);
  }

  lemma Rejoined(s: string, n: nat)
    requires n <= |s|
    ensures s[..n] + s[n..] == s && (n == 1 ==> s[..n] == [s[0]])
  {
  }

  /**
   Protecting and restoring gives the body back, or nothing exactly when the body holds a marker of its own outside
   its variables.
   */
  lemma RestoreUndoesProtect(num: Numerals, body: string)
    requires IsNumerals(num)
    ensures Restored(num, Marked(body, 0), Variables(body))
            == if Literal(num, body) == [] then Some(body) else None
  {
    var n := |Variables(body)|;
    FoundMarked(num, body, 0);
    if Literal(num, body) == [] {
      NumbersAreInRange(Found(num, Marked(body, 0)), n);
      assert Variables(body)[0..n] == Variables(body);
      FilledMarked(num, body, 0, Variables(body));
    } else {
      var all := multiset(Literal(num, body)) + multiset(From(0, n));
      assert |all| == |Literal(num, body)| + n && |multiset(From(0, n))| == n;
    }
  }

  // ---------- Whatever the translator returned ----------

  function Around(num: Numerals, s: string): (gaps: seq<string>)
    ensures |gaps| == |Found(num, s)| + 1
  {
    if s == [] then [""]
    else
      var n := MarkerAt(num, s);
      if n > 0 then [""] + Around(num, s[n..])
      else
        var gaps := Around(num, s[1..]);
        [[s[0]] + gaps[0]] + gaps[1..]
  }

  // The markers as the translator wrote them.
  function Markers(num: Numerals, s: string): (markers: seq<string>)
    ensures |markers| == |Found(num, s)|
  {
    if s == [] then []
    else
      var n := MarkerAt(num, s);
      if n > 0 then [s[..n]] + Markers(num, s[n..]) else Markers(num, s[1..])
  }

  function Chosen(found: seq<nat>, variables: seq<string>): (chosen: seq<string>)
    requires AreNumbered(found, |variables|)
    ensures |chosen| == |found| && forall i :: 0 <= i < |found| ==> chosen[i] == variables[found[i] - 1]
  {
    seq(|found|, i requires 0 <= i < |found| => variables[found[i] - 1])
  }

  lemma WovenAtMarker(gaps: seq<string>, first: string, inserts: seq<string>)
    requires |gaps| == |inserts| + 1
    ensures Woven([""] + gaps, [first] + inserts) == first + Woven(gaps, inserts)
  {
    WovenOnward("", gaps, first, inserts);
  }

  lemma WovenAtLetter(c: char, gaps: seq<string>, inserts: seq<string>)
    requires |gaps| == |inserts| + 1
    ensures Woven([[c] + gaps[0]] + gaps[1..], inserts) == [c] + Woven(gaps, inserts)
  {
    assert ([[c] + gaps[0]] + gaps[1..])[1..] == gaps[1..];
  }

  lemma ChosenStep(k: nat, found: seq<nat>, variables: seq<string>)
    requires 0 < k <= |variables| && AreNumbered(found, |variables|)
    ensures AreNumbered([k] + found, |variables|)
    ensures Chosen([k] + found, variables) == [variables[k - 1]] + Chosen(found, variables)
  {
  }

  lemma {:induction false} FilledIsWoven(num: Numerals, s: string, variables: seq<string>)
    requires AreNumbered(Found(num, s), |variables|)
    ensures Filled(num, s, variables) == Woven(Around(num, s), Chosen(Found(num, s), variables))
  {
    if s != [] {
      var n := MarkerAt(num, s);
      var rest := s[if n > 0 then n else 1..];
      var found := Found(num, rest);
      assert n > 0 ==> Found(num, s)[0] == NumberAt(num, s) && Found(num, s)[1..] == found;
      assert n == 0 ==> Found(num, s) == found;
      FilledIsWoven(num, rest, variables);
      if n > 0 {
        WovenAtMarker(Around(num, rest), variables[NumberAt(num, s) - 1], Chosen(found, variables));
        ChosenStep(NumberAt(num, s), found, variables);
      } else {
        WovenAtLetter(s[0], Around(num, rest), Chosen(found, variables));
      }
    }
  }

  lemma {:induction false} TextIsWoven(num: Numerals, s: string)
    ensures s == Woven(Around(num, s), Markers(num, s))
  {
    if s != [] {
      var n := MarkerAt(num, s);
      var rest := s[if n > 0 then n else 1..];
      TextIsWoven(num, rest);
      if n > 0 {
        WovenAtMarker(Around(num, rest), s[..n], Markers(num, rest));
      } else {
        WovenAtLetter(s[0], Around(num, rest), Markers(num, rest));
      }
    }
  }

  // ---------- Which stretches are markers ----------

  predicate IsMarker(num: Numerals, m: string) {
    |m| >= 7 && m[..5] == OPEN && m[|m| - 1] == ']' && forall i :: 5 <= i < |m| - 1 ==> num(m[i]).Some?
  }

  function Number(num: Numerals, m: string): nat
    requires IsMarker(num, m)
  {
    ValueIn(num, m[5..|m| - 1])
  }

  lemma MarkerAtExactly(num: Numerals, s: string, n: int)
    requires IsNumerals(num) && 0 < n <= |s|
    ensures MarkerAt(num, s) == n <==> IsMarker(num, s[..n])
    ensures MarkerAt(num, s) == n ==> NumberAt(num, s) == Number(num, s[..n])
  {
    assert forall i :: 0 <= i < n ==> s[..n][i] == s[i];
    if MarkerAt(num, s) == n {
      assert s[..n][..5] == s[..5];
      forall i | 5 <= i < n - 1 ensures num(s[i]).Some? {
        assert IsNumeral(num)(s[5..][i - 5]);
      }
      assert s[..n][5..n - 1] == s[5..n - 1];
    } else if IsMarker(num, s[..n]) {
      MarkerIsThere(num, s, n);
    }
  }

  lemma MarkerIsThere(num: Numerals, s: string, n: int)
    requires IsNumerals(num) && 0 < n <= |s| && IsMarker(num, s[..n])
    ensures MarkerAt(num, s) == n
  {
    assert forall i :: 0 <= i < n ==> s[..n][i] == s[i];
    assert s[..5] == s[..n][..5];
    forall i | 0 <= i < n - 6 ensures IsNumeral(num)(s[5..][i]) {
      assert s[5..][i] == s[..n][i + 5];
    }
    assert s[5..][n - 6] == ']';
    RunIs(IsNumeral(num), s[5..], n - 6);
  }

  lemma MarkersAreApart(num: Numerals, s: string, n: int, a: int, b: int)
    requires IsNumerals(num) && 0 < n <= |s| && IsMarker(num, s[..n]) && 0 < a < n && a < b <= |s|
    ensures !IsMarker(num, s[a..b])
  {
    assert s[..n][a] == s[a] && s[a..b][0] == s[a];
    assert a < 5 ==> s[..n][..5][a] == OPEN[a];
    assert |s[a..b]| >= 5 ==> s[a..b][..5][0] == s[a..b][0];
  }

  lemma MarkerAtFinds(num: Numerals)
    requires IsNumerals(num)
    ensures Finds(s => MarkerAt(num, s), m => IsMarker(num, m))
  {
    forall s: string, n: int {:trigger s[..n]} | 0 < n <= |s|
      ensures MarkerAt(num, s) == n <==> IsMarker(num, s[..n])
    {
      MarkerAtExactly(num, s, n);
    }
    forall s: string, n: int, a: int, b: int {:trigger s[..n], s[a..b]}
      | 0 < n <= |s| && IsMarker(num, s[..n]) && 0 < a < n && a < b <= |s| ensures !IsMarker(num, s[a..b])
    {
      MarkersAreApart(num, s, n, a, b);
    }
  }

  lemma {:induction false} MarkersUpTo(num: Numerals, s: string, from: nat, to: nat)
    requires from <= to <= |s| && forall i :: from <= i < to ==> MarkerAt(num, s[i..]) == 0
    ensures Markers(num, s[from..]) == Markers(num, s[to..]) && Found(num, s[from..]) == Found(num, s[to..])
    decreases |s| - from
  {
    if from < to {
      MarkersUpTo(num, s, from + 1, to);
      assert MarkerAt(num, s[from..]) == 0 && s[from..][1..] == s[from + 1..];
    }
  }

  lemma MarkerAmongThem(num: Numerals, s: string, from: nat, ends: seq<(int, int)>, i: nat)
    requires IsNumerals(num) && from <= i < |s| && AreAllFrom(m => IsMarker(num, m), s, from, ends)
    requires MarkerAt(num, s[i..]) > 0
    ensures ends != [] && ends[0].0 <= i
  {
    var n := MarkerAt(num, s[i..]);
    MarkerAtExactly(num, s[i..], n);
    assert s[i..][..n] == s[i..i + n];
    assert (i, i + n) in ends;
  }

  lemma NoMarkerBefore(num: Numerals, s: string, from: nat, ends: seq<(int, int)>)
    requires IsNumerals(num) && from <= |s| && AreAllFrom(m => IsMarker(num, m), s, from, ends)
    ensures forall i :: from <= i < (if ends == [] then |s| else ends[0].0) ==> MarkerAt(num, s[i..]) == 0
  {
    forall i: nat | from <= i < (if ends == [] then |s| else ends[0].0) ensures MarkerAt(num, s[i..]) == 0 {
      if MarkerAt(num, s[i..]) > 0 {
        MarkerAmongThem(num, s, from, ends, i);
      }
    }
  }

  lemma AtMarker(num: Numerals, s: string, a: nat, b: nat)
    requires IsNumerals(num) && a < b <= |s| && IsMarker(num, s[a..b])
    ensures Markers(num, s[a..]) == [s[a..b]] + Markers(num, s[b..])
    ensures Found(num, s[a..]) == [Number(num, s[a..b])] + Found(num, s[b..])
  {
    var rest, n := s[a..], b - a;
    assert rest[..n] == s[a..b] && rest[n..] == s[b..];
    AtFront(num, rest, n);
  }

  lemma AtFront(num: Numerals, s: string, n: int)
    requires IsNumerals(num) && 0 < n <= |s| && IsMarker(num, s[..n])
    ensures Markers(num, s) == [s[..n]] + Markers(num, s[n..])
    ensures Found(num, s) == [Number(num, s[..n])] + Found(num, s[n..])
  {
    MarkerAtExactly(num, s, n);
  }

  ghost predicate AreNumbersOf(num: Numerals, found: seq<nat>, markers: seq<string>) {
    && |found| == |markers|
    && forall i :: 0 <= i < |found| ==> IsMarker(num, markers[i]) && found[i] == Number(num, markers[i])
  }

  lemma {:induction false} MarkersAreCuts(num: Numerals, s: string, from: nat, ends: seq<(int, int)>)
    requires IsNumerals(num) && from <= |s| && AreAllFrom(m => IsMarker(num, m), s, from, ends)
    ensures Markers(num, s[from..]) == Cuts(s, ends)
    ensures AreNumbersOf(num, Found(num, s[from..]), Markers(num, s[from..]))
    decreases |ends|
  {
    NoMarkerBefore(num, s, from, ends);
    if ends == [] {
      MarkersUpTo(num, s, from, |s|);
    } else {
      var (a, b) := ends[0];
      MarkersUpTo(num, s, from, a);
      AtMarker(num, s, a, b);
      AllBehind(m => IsMarker(num, m), s, from, ends);
      MarkersAreCuts(num, s, b, ends[1..]);
      CutsOnward(s, ends);
    }
  }

  // The markers read are all stretches of their shape, in order, each with the number its digits stand for.
  lemma ReadsAllMarkers(num: Numerals, s: string) returns (ends: seq<(int, int)>)
    requires IsNumerals(num)
    ensures AreAllFrom(m => IsMarker(num, m), s, 0, ends) && Markers(num, s) == Cuts(s, ends)
    ensures AreNumbersOf(num, Found(num, s), Markers(num, s))
  {
    ends := Ends(t => MarkerAt(num, t), s, 0);
    MarkerAtFinds(num);
    EndsAreAll(t => MarkerAt(num, t), m => IsMarker(num, m), s, 0);
    MarkersAreCuts(num, s, 0, ends);
    assert s[0..] == s;
  }

  // ---------- Each variable once ----------

  function Without<T>(s: seq<T>, i: nat): (r: seq<T>)
    requires i < |s|
    ensures |r| == |s| - 1 && forall j :: 0 <= j < |r| ==> r[j] == if j < i then s[j] else s[j + 1]
  {
    s[..i] + s[i + 1..]
  }

  lemma OneLess<T>(s: seq<T>, i: nat)
    requires i < |s|
    ensures multiset(s) == multiset(Without(s, i)) + multiset{s[i]}
  {
    assert s == s[..i] + [s[i]] + s[i + 1..];
  }

  lemma ChosenWithout(b: seq<nat>, i: nat, variables: seq<string>)
    requires AreNumbered(b, |variables|) && i < |b|
    ensures AreNumbered(Without(b, i), |variables|)
    ensures Chosen(Without(b, i), variables) == Without(Chosen(b, variables), i)
  {
  }

  lemma FirstIsAlsoThere(a: seq<nat>, b: seq<nat>) returns (i: nat)
    requires multiset(a) == multiset(b) && a != []
    ensures i < |b| && b[i] == a[0] && multiset(Without(a, 0)) == multiset(Without(b, i))
  {
    assert a[0] in multiset(b);
    i :| 0 <= i < |b| && b[i] == a[0];
    OneLess(a, 0);
    OneLess(b, i);
    assert multiset(Without(a, 0)) == multiset(a) - multiset{a[0]};
    assert multiset(Without(b, i)) == multiset(b) - multiset{a[0]};
  }

  lemma TakeOneOut(b: seq<nat>, i: nat, variables: seq<string>, v: string)
    requires AreNumbered(b, |variables|) && i < |b|
    ensures AreNumbered(Without(b, i), |variables|)
    ensures multiset(Chosen(b, variables))[v]
            == multiset(Chosen(Without(b, i), variables))[v] + if variables[b[i] - 1] == v then 1 else 0
  {
    ChosenWithout(b, i, variables);
    OneLess(Chosen(b, variables), i);
  }

  lemma {:induction false} ChosenByCount(a: seq<nat>, b: seq<nat>, variables: seq<string>, v: string)
    requires AreNumbered(a, |variables|) && AreNumbered(b, |variables|) && multiset(a) == multiset(b)
    ensures multiset(Chosen(a, variables))[v] == multiset(Chosen(b, variables))[v]
    decreases |a|
  {
    if a == [] {
      assert |b| == |multiset(b)| == |multiset(a)|;
    } else {
      var i := FirstIsAlsoThere(a, b);
      TakeOneOut(a, 0, variables, v);
      TakeOneOut(b, i, variables, v);
      ChosenByCount(Without(a, 0), Without(b, i), variables, v);
    }
  }

  lemma AllChosen(variables: seq<string>)
    ensures AreNumbered(From(0, |variables|), |variables|)
    ensures Chosen(From(0, |variables|), variables) == variables
  {
    var all := From(0, |variables|);
    assert AreNumbered(all, |variables|);
    var chosen := Chosen(all, variables);
    forall i | 0 <= i < |variables| ensures chosen[i] == variables[i] {
      assert all[i] == i + 1;
    }
  }

  lemma EachAsOften(found: seq<nat>, variables: seq<string>, v: string)
    requires AreNumbered(found, |variables|) && IsPermutation(found, |variables|)
    ensures multiset(Chosen(found, variables))[v] == multiset(variables)[v]
  {
    AllChosen(variables);
    ChosenByCount(found, From(0, |variables|), variables, v);
  }

  lemma SameCounts(s: seq<string>, t: seq<string>)
    requires forall v :: multiset(s)[v] == multiset(t)[v]
    ensures multiset(s) == multiset(t)
  {
  }

  lemma ChosenIsEachOnce(found: seq<nat>, variables: seq<string>)
    requires AreNumbered(found, |variables|) && IsPermutation(found, |variables|)
    ensures multiset(Chosen(found, variables)) == multiset(variables)
  {
    var chosen := Chosen(found, variables);
    forall v ensures multiset(chosen)[v] == multiset(variables)[v] {
      EachAsOften(found, variables, v);
    }
    SameCounts(chosen, variables);
  }

  /**
   A translation that is not refused: the text around the markers is the translator's, and in the markers' places
   stand the template's variables, each exactly once.
   */
  lemma RestoredHoldsEachVariableOnce(num: Numerals, s: string, variables: seq<string>)
    ensures Restored(num, s, variables).Some? <==>
      |Found(num, s)| == |variables| && forall k :: 0 < k <= |variables| ==> k in Found(num, s)
    ensures s == Woven(Around(num, s), Markers(num, s))
    ensures Restored(num, s, variables).Some? ==>
      && AreNumbered(Found(num, s), |variables|)
      && multiset(Chosen(Found(num, s), variables)) == multiset(variables)
      && Restored(num, s, variables).value == Woven(Around(num, s), Chosen(Found(num, s), variables))
  {
    var found, n := Found(num, s), |variables|;
    TextIsWoven(num, s);
    if IsPermutation(found, n) {
      NumbersAreInRange(found, n);
      FilledIsWoven(num, s, variables);
      ChosenIsEachOnce(found, variables);
      assert |found| == |multiset(found)| == |multiset(From(0, n))| == n;
      forall k | 0 < k <= n ensures k in found {
        assert From(0, n)[k - 1] == k;
        assert k in multiset(found);
      }
    } else if |found| == n && forall k :: 0 < k <= n ==> k in found {
      AllOfThemOnce(found, n);
    }
  }

  // n numbers among which are 1 to n are 1 to n, each once.
  lemma {:induction false} AllOfThemOnce(found: seq<nat>, n: nat)
    requires |found| == n && forall k :: 0 < k <= n ==> k in found
    ensures IsPermutation(found, n)
  {
    var some, all := multiset(found), multiset(From(0, n));
    forall k: nat ensures all[k] <= some[k] {
      FromHoldsOnce(0, n, k);
      assert 0 < k <= n ==> k in found && k in some;
    }
    assert all <= some && |some - all| == |some| - |all| == 0;
    assert some == all + (some - all);
  }

  lemma {:induction false} FromHoldsOnce(k: nat, n: nat, x: nat)
    ensures multiset(From(k, n))[x] == if k < x <= k + n then 1 else 0
    decreases n
  {
    if n > 0 {
      FromHoldsOnce(k + 1, n - 1, x);
      FromStep(k, n);
    }
  }
}
