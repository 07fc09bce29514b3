/**
 Swapping recognised details for placeholders: which hits are taken, how they are numbered and spliced in, and what
 filling the vault's values back in gives. The recogniser's hits are arbitrary.
 */
module Masking {
  import opened Collections
  import opened Common
  import opened Decimal
  import opened Details
  import opened Hits
  import opened Scanning
  import opened Spellings
  import opened Weaving

  // ---------- Placeholder-shaped text ----------

  // How long a placeholder the text starts with (0: none): a bracket, a kind, an underscore, digits, a bracket.
  function MatchLen(s: string): (n: nat)
    ensures n <= |s|
  {
    if s == [] || s[0] != '[' then 0
    else
      var name := RunOf(IsUpper, s[1..]);
      if !IsName(s[1..name + 1]) || name + 1 == |s| || s[name + 1] != '_' then 0
      else
        var digits := RunOf(IsDigit, s[name + 2..]);
        if digits == 0 || name + digits + 2 == |s| || s[name + digits + 2] != ']' then 0 else name + digits + 3
  }

  // At every place of a text, how long a placeholder starts there.
  function MatchLens(text: string): (lens: seq<nat>)
    ensures |lens| == |text|
    ensures forall i {:trigger lens[i]} :: 0 <= i < |text| ==> lens[i] == MatchLen(text[i..]) && i + lens[i] <= |text|
  {
    seq(|text|, i requires 0 <= i < |text| => MatchLen(text[i..]))
  }

  // Every match, left to right.
  function Spans(lens: seq<nat>, from: nat): seq<Span>
    decreases |lens| - from
  {
    if from >= |lens| then []
    else if lens[from] > 0 then [Span(from, from + lens[from])] + Spans(lens, from + lens[from])
    else Spans(lens, from + 1)
  }

  function PlaceholderSpans(text: string): seq<Span> {
    Spans(MatchLens(text), 0)
  }

  lemma MatchShape(s: string)
    requires MatchLen(s) > 0
    ensures s[0] == '[' && s[MatchLen(s) - 1] == ']' && forall j :: 1 <= j < MatchLen(s) ==> s[j] != '['
  {
    var name := RunOf(IsUpper, s[1..]);
    var digits := RunOf(IsDigit, s[name + 2..]);
    forall j | 1 <= j < MatchLen(s) ensures s[j] != '[' {
      if j <= name {
        assert IsUpper(s[1..][j - 1]);
      } else if name + 2 <= j < name + digits + 2 {
        assert IsDigit(s[name + 2..][j - name - 2]);
      }
    }
  }

  lemma MatchIs(s: string, name: nat, digits: nat)
    requires digits > 0 && name + digits + 3 <= |s| && s[0] == '[' && IsName(s[1..name + 1])
    requires forall i :: 1 <= i <= name ==> IsUpper(s[i])
    requires s[name + 1] == '_' && s[name + digits + 2] == ']'
    requires forall i :: name + 2 <= i < name + digits + 2 ==> IsDigit(s[i])
    ensures MatchLen(s) == name + digits + 3
  {
    forall i | 0 <= i < name ensures IsUpper(s[1..][i]) {
      assert IsUpper(s[i + 1]);
    }
    RunIs(IsUpper, s[1..], name);
    var rest := s[name + 2..];
    forall i | 0 <= i < digits ensures IsDigit(rest[i]) {
      assert rest[i] == s[name + 2 + i];
    }
    RunIs(IsDigit, rest, digits);
  }

  // A match depends on nothing behind it.
  lemma PrefixDecides(s: string, t: string)
    requires MatchLen(s) > 0 && s[..MatchLen(s)] <= t
    ensures MatchLen(t) == MatchLen(s)
  {
    var name := RunOf(IsUpper, s[1..]);
    var digits := RunOf(IsDigit, s[name + 2..]);
    var n := MatchLen(s);
    assert forall i :: 0 <= i < n ==> t[i] == s[..n][i] == s[i];
    assert t[1..name + 1] == s[1..name + 1];
    forall i | 1 <= i <= name ensures IsUpper(t[i]) {
      assert IsUpper(s[1..][i - 1]);
    }
    forall i | name + 2 <= i < name + digits + 2 ensures IsDigit(t[i]) {
      assert IsDigit(s[name + 2..][i - name - 2]);
    }
    MatchIs(t, name, digits);
  }

  lemma PlaceholderMatches(k: Kind, n: nat, rest: string)
    ensures MatchLen(Placeholder(k, n) + rest) == |Placeholder(k, n)|
  {
    var p, name, digits := Placeholder(k, n), |Name(k)|, |Digits(n)|;
    var s := p + rest;
    assert s[1..name + 1] == Name(k);
    assert forall i :: 1 <= i <= name ==> s[i] == Name(k)[i - 1];
    assert forall i :: name + 2 <= i < name + digits + 2 ==> s[i] == Digits(n)[i - name - 2];
    MatchIs(s, name, digits);
  }

  predicate AreApart(lens: seq<nat>) {
    forall i, j :: 0 <= i < j < |lens| && lens[i] > 0 && lens[j] > 0 ==> i + lens[i] <= j
  }

  lemma MatchesAreApart(text: string)
    ensures AreApart(MatchLens(text))
  {
    forall i, j | 0 <= i < j < |text| && MatchLen(text[i..]) > 0 && MatchLen(text[j..]) > 0
      ensures i + MatchLen(text[i..]) <= j
    {
      MatchShape(text[i..]);
      MatchShape(text[j..]);
      assert text[j..][0] == text[i..][j - i];
    }
  }

  lemma {:induction false} SpansAreAll(lens: seq<nat>, from: nat, i: nat)
    requires AreApart(lens) && from <= i < |lens| && lens[i] > 0
    ensures Span(i, i + lens[i]) in Spans(lens, from)
    decreases |lens| - from
  {
    if from < i {
      SpansAreAll(lens, if lens[from] > 0 then from + lens[from] else from + 1, i);
    }
  }

  // A bracket, one of the kinds, an underscore, digits, a bracket; the underscore is at u.
  ghost predicate IsSplitAt(p: string, u: int) {
    && 1 <= u < |p| - 2 && p[0] == '[' && p[u] == '_' && p[|p| - 1] == ']'
    && (exists k: Kind :: p[1..u] == Name(k)) && AllDigits(p[u + 1..|p| - 1])
  }

  ghost predicate IsShape(p: string) {
    exists u :: IsSplitAt(p, u)
  }

  lemma NamesAreNames(s: string)
    ensures IsName(s) <==> exists k: Kind :: s == Name(k)
  {
    assert IsName(s) ==>
      s == Name(Person) || s == Name(Email) || s == Name(Phone) || s == Name(Ic) || s == Name(Passport)
      || s == Name(Account) || s == Name(Card) || s == Name(Location) || s == Name(Org);
  }

  lemma MatchParts(s: string) returns (u: nat)
    requires MatchLen(s) > 0
    ensures 1 <= u < MatchLen(s) - 2 && s[0] == '[' && IsName(s[1..u]) && s[u] == '_' && s[MatchLen(s) - 1] == ']'
    ensures forall i :: u < i < MatchLen(s) - 1 ==> IsDigit(s[i])
  {
    var name := RunOf(IsUpper, s[1..]);
    var rest := s[name + 2..];
    u := name + 1;
    forall i | u < i < MatchLen(s) - 1 ensures IsDigit(s[i]) {
      assert IsDigit(rest[i - u - 1]) && rest[i - u - 1] == s[i];
    }
  }

  lemma MatchIsShape(s: string, n: nat)
    requires n == MatchLen(s) > 0
    ensures IsShape(s[..n])
  {
    var u := MatchParts(s);
    PartsAreShape(s, n, u);
  }

  lemma PartsAreShape(s: string, n: nat, u: nat)
    requires 1 <= u < n - 2 && n <= |s| && s[0] == '[' && IsName(s[1..u]) && s[u] == '_' && s[n - 1] == ']'
    requires forall i :: u < i < n - 1 ==> IsDigit(s[i])
    ensures IsShape(s[..n])
  {
    var p := s[..n];
    NamesAreNames(s[1..u]);
    PartInFront(s, n, 1, u);
    PartInFront(s, n, u + 1, n - 1);
    assert IsSplitAt(p, u);
  }

  lemma ShapeIsMatch(s: string, n: int, u: int)
    requires 0 < n <= |s| && IsSplitAt(s[..n], u)
    ensures MatchLen(s) == n
  {
    var p := s[..n];
    PartInFront(s, n, 1, u);
    PartInFront(s, n, u + 1, n - 1);
    assert s[0] == p[0] && s[u] == p[u] && s[n - 1] == p[n - 1];
    NamesAreUpper(s[1..u]);
    assert forall i {:trigger s[i]} :: 1 <= i <= u - 1 ==> s[i] == s[1..u][i - 1];
    assert forall i {:trigger s[i]} :: u + 1 <= i < n - 1 ==> s[i] == s[u + 1..n - 1][i - u - 1];
    NamesAreNames(s[1..u]);
    MatchIs(s, u - 1, n - u - 2);
  }

  lemma NamesAreUpper(name: string)
    requires exists k: Kind :: name == Name(k)
    ensures name != [] && forall i :: 0 <= i < |name| ==> IsUpper(name[i])
  {
  }

  lemma MatchLenExactly(s: string, n: int)
    requires 0 < n <= |s|
    ensures MatchLen(s) == n <==> IsShape(s[..n])
  {
    if MatchLen(s) == n {
      MatchIsShape(s, n);
    }
    if IsShape(s[..n]) {
      var u :| IsSplitAt(s[..n], u);
      ShapeIsMatch(s, n, u);
    }
  }

  lemma ShapesAreApart(s: string, n: int, a: int, b: int)
    requires 0 < n <= |s| && IsShape(s[..n]) && 0 < a < n && a < b <= |s|
    ensures !IsShape(s[a..b])
  {
    MatchLenExactly(s, n);
    MatchShape(s);
    assert s[a..b][0] == s[a];
  }

  lemma MatchLenFinds()
    ensures Finds(MatchLen, p => IsShape(p))
  {
    forall s: string, n: int {:trigger s[..n]} | 0 < n <= |s| ensures MatchLen(s) == n <==> IsShape(s[..n]) {
      MatchLenExactly(s, n);
    }
    forall s: string, n: int, a: int, b: int {:trigger s[..n], s[a..b]}
      | 0 < n <= |s| && IsShape(s[..n]) && 0 < a < n && a < b <= |s| ensures !IsShape(s[a..b])
    {
      ShapesAreApart(s, n, a, b);
    }
  }

  function SpansOf(ends: seq<(int, int)>): (spans: seq<Span>)
    ensures |spans| == |ends| && forall i :: 0 <= i < |ends| ==> spans[i] == Span(ends[i].0, ends[i].1)
  {
    if ends == [] then [] else [Span(ends[0].0, ends[0].1)] + SpansOf(ends[1..])
  }

  lemma {:induction false} SpansAreEnds(matchAt: string -> nat, text: string, lens: seq<nat>, from: nat)
    requires from <= |text| == |lens|
    requires forall i {:trigger lens[i]} ::
               0 <= i < |text| ==> lens[i] == matchAt(text[i..]) && i + lens[i] <= |text|
    ensures Spans(lens, from) == SpansOf(Ends(matchAt, text, from))
    decreases |text| - from
  {
    if from < |text| {
      SpansAreEnds(matchAt, text, lens, if lens[from] > 0 then from + lens[from] else from + 1);
    }
  }

  // The spans found are all placeholder-shaped stretches of the text, in order, and nothing else.
  lemma SpansAreAllShapes(text: string) returns (ends: seq<(int, int)>)
    ensures AreAllFrom(p => IsShape(p), text, 0, ends) && PlaceholderSpans(text) == SpansOf(ends)
  {
    ends := Ends(MatchLen, text, 0);
    MatchLenFinds();
    EndsAreAll(MatchLen, p => IsShape(p), text, 0);
    SpansAreEnds(MatchLen, text, MatchLens(text), 0);
  }

  // ---------- Numbering and splicing ----------

  function EntityKind(entity: string): Kind {
    if entity == "PERSON" then Person
    else if entity == "LOCATION" || entity == "MY_POSTCODE" then Location
    else if entity == "ORGANIZATION" then Org
    else if entity == "CREDIT_CARD" then Card
    else if entity == "PHONE_NUMBER" then Phone
    else if entity == "EMAIL_ADDRESS" then Email
    else Account
  }

  // The name each entity the recogniser is asked for is masked under; any other is masked as an account.
  lemma NameOfEntity(entity: string)
    ensures entity == "PERSON" ==> Name(EntityKind(entity)) == "PERSON"
    ensures entity == "LOCATION" || entity == "MY_POSTCODE" ==> Name(EntityKind(entity)) == "LOCATION"
    ensures entity == "ORGANIZATION" ==> Name(EntityKind(entity)) == "ORG"
    ensures entity == "CREDIT_CARD" ==> Name(EntityKind(entity)) == "CARD"
    ensures entity == "PHONE_NUMBER" ==> Name(EntityKind(entity)) == "PHONE"
    ensures entity == "EMAIL_ADDRESS" ==> Name(EntityKind(entity)) == "EMAIL"
    ensures entity !in OTHER_KINDS ==> Name(EntityKind(entity)) == "ACCOUNT"
  {
  }

  // The entities of the recogniser that are not masked as accounts.
  const OTHER_KINDS := {"PERSON", "LOCATION", "MY_POSTCODE", "ORGANIZATION", "CREDIT_CARD", "PHONE_NUMBER",
                        "EMAIL_ADDRESS"}

  function PickedIn(text: string, results: seq<Hit>): (picked: seq<Hit>)
    ensures InReadingOrder(picked, |text|)
  {
    PickedExactly(results, |text|, PlaceholderSpans(text));
    Picked(results, |text|, PlaceholderSpans(text))
  }

  // The picked details numbered one after the other: the vault they leave, and their placeholders.
  function Tokens(l: Letters, v: Vault, text: string, picked: seq<Hit>): (r: (Vault, seq<string>))
    requires InReadingOrder(picked, |text|)
    ensures |r.1| == |picked|
    decreases |picked|
  {
    if picked == [] then (v, [])
    else
      var (w, p) := Numbered(l, v, EntityKind(picked[0].entity), text[picked[0].start..picked[0].end]);
      var (x, rest) := Tokens(l, w, text, picked[1..]);
      (x, [p] + rest)
  }

  // The text between the picked hits, from a place before them on.
  function Gaps(text: string, from: nat, picked: seq<Hit>): (gaps: seq<string>)
    requires InReadingOrder(picked, |text|) && from <= |text| && (picked != [] ==> from <= picked[0].start)
    ensures |gaps| == |picked| + 1
    decreases |picked|
  {
    if picked == [] then [text[from..]]
    else [text[from..picked[0].start]] + Gaps(text, picked[0].end, picked[1..])
  }

  function Originals(text: string, picked: seq<Hit>): (originals: seq<string>)
    requires InReadingOrder(picked, |text|)
    ensures |originals| == |picked|
    ensures forall i :: 0 <= i < |picked| ==> originals[i] == text[picked[i].start..picked[i].end]
  {
    if picked == [] then [] else [text[picked[0].start..picked[0].end]] + Originals(text, picked[1..])
  }

  function EndBefore(picked: seq<Hit>, i: nat): int
    requires i <= |picked|
  {
    if i == 0 then 0 else picked[i - 1].end
  }

  // Sorted, chosen, numbered in reading order, then spliced in from the end so that earlier offsets stay valid.
  method ReplaceEntities(text: string, results: seq<Hit>, v: DetailVault) returns (masked: string)
    modifies v
    ensures var picked := PickedIn(text, results);
            var (w, tokens) := Tokens(v.letters, old(v.View()), text, picked);
            v.View() == w && masked == Woven(Gaps(text, 0, picked), tokens)
  {
    var sorted := BestFirst(results);
    var chosen := ChooseHits(sorted, |text|, PlaceholderSpans(text));
    var picked := ByStart(chosen);
    assert picked == PickedIn(text, results);
    var tokens := NumberHits(text, picked, v);
    masked := Splice(text, picked, tokens);
  }

  method ChooseHits(sorted: seq<Hit>, size: nat, placeholders: seq<Span>) returns (chosen: seq<Hit>)
    ensures chosen == Chosen(sorted, size, placeholders)
  {
    var taken := placeholders;
    chosen := [];
    for i := 0 to |sorted|
      invariant chosen + Chosen(sorted[i..], size, taken) == Chosen(sorted, size, placeholders)
    {
      assert sorted[i..][1..] == sorted[i + 1..];
      var h := sorted[i];
      if Fits(h, size) && !OverlapsAny(SpanOf(h), taken) {
        taken := taken + [SpanOf(h)];
        chosen := chosen + [h];
      }
    }
  }

  method NumberHits(text: string, picked: seq<Hit>, v: DetailVault) returns (tokens: seq<string>)
    requires InReadingOrder(picked, |text|)
    modifies v
    ensures (v.View(), tokens) == Tokens(v.letters, old(v.View()), text, picked)
  {
    tokens := [];
    OnwardEnds(v.letters, v.View(), text, picked, []);
    for i := 0 to |picked|
      invariant Onward(v.letters, v.View(), text, picked, i, tokens)
                == Tokens(v.letters, old(v.View()), text, picked)
    {
      OnwardStep(v.letters, v.View(), text, picked, i, tokens);
      var p := v.PlaceholderFor(EntityKind(picked[i].entity), text[picked[i].start..picked[i].end]);
      tokens := tokens + [p];
    }
    OnwardEnds(v.letters, v.View(), text, picked, tokens);
  }

  // The tokens so far and those of the hits from the i-th on.
  ghost function Onward(l: Letters, v: Vault, text: string, picked: seq<Hit>, i: nat, tokens: seq<string>)
      : (Vault, seq<string>)
    requires InReadingOrder(picked, |text|) && i <= |picked|
  {
    var (w, rest) := Tokens(l, v, text, picked[i..]);
    (w, tokens + rest)
  }

  lemma OnwardEnds(l: Letters, v: Vault, text: string, picked: seq<Hit>, tokens: seq<string>)
    requires InReadingOrder(picked, |text|)
    ensures Onward(l, v, text, picked, 0, []) == Tokens(l, v, text, picked)
    ensures Onward(l, v, text, picked, |picked|, tokens) == (v, tokens)
  {
    assert picked[0..] == picked && [] + Tokens(l, v, text, picked).1 == Tokens(l, v, text, picked).1;
    assert picked[|picked|..] == [] && tokens + [] == tokens;
  }

  lemma OnwardStep(l: Letters, v: Vault, text: string, picked: seq<Hit>, i: nat, tokens: seq<string>)
    requires InReadingOrder(picked, |text|) && i < |picked|
    ensures var (w, p) := Numbered(l, v, EntityKind(picked[i].entity), text[picked[i].start..picked[i].end]);
            Onward(l, v, text, picked, i, tokens) == Onward(l, w, text, picked, i + 1, tokens + [p])
  {
    var (w, p) := Numbered(l, v, EntityKind(picked[i].entity), text[picked[i].start..picked[i].end]);
    assert picked[i..][0] == picked[i] && picked[i..][1..] == picked[i + 1..];
    Associates(tokens, [p], Tokens(l, w, text, picked[i + 1..]).1);
  }

  method Splice(text: string, picked: seq<Hit>, tokens: seq<string>) returns (runes: string)
    requires InReadingOrder(picked, |text|) && |tokens| == |picked|
    ensures runes == Woven(Gaps(text, 0, picked), tokens)
  {
    runes := text;
    var i: nat := |picked|;
    EndSplice(text, picked);
    while i > 0
      invariant i <= |picked|
      invariant runes == Spliced(text, picked, tokens, i)
    {
      i := i - 1;
      var r := picked[i];
      SpliceStep(text, picked, tokens, i);
      runes := runes[..r.start] + tokens[i] + runes[r.end..];
    }
    assert picked[0..] == picked && tokens[0..] == tokens;
    assert runes == "" + Woven(Gaps(text, 0, picked), tokens);
  }

  // The text with the hits from the i-th on replaced.
  ghost function Spliced(text: string, picked: seq<Hit>, tokens: seq<string>, i: nat): string
    requires InReadingOrder(picked, |text|) && |tokens| == |picked| && i <= |picked|
  {
    var end := EndBefore(picked, i);
    text[..end] + Woven(Gaps(text, end, picked[i..]), tokens[i..])
  }

  lemma EndSplice(text: string, picked: seq<Hit>)
    requires InReadingOrder(picked, |text|)
    ensures forall tokens: seq<string> :: |tokens| == |picked| ==> Spliced(text, picked, tokens, |picked|) == text
  {
    var end := EndBefore(picked, |picked|);
    assert text[..end] + text[end..] == text;
    assert picked[|picked|..] == [];
  }

  lemma SpliceStep(text: string, picked: seq<Hit>, tokens: seq<string>, i: nat)
    requires InReadingOrder(picked, |text|) && |tokens| == |picked| && i < |picked|
    ensures var r, runes := picked[i], Spliced(text, picked, tokens, i + 1);
            && r.end <= |runes|
            && Spliced(text, picked, tokens, i) == runes[..r.start] + tokens[i] + runes[r.end..]
  {
    var r, before := picked[i], EndBefore(picked, i);
    var behind := Woven(Gaps(text, r.end, picked[i + 1..]), tokens[i + 1..]);
    WovenFrom(text, picked, tokens, i);
    var runes := text[..r.end] + behind;
    assert runes[..r.start] == text[..r.start] && runes[r.end..] == behind;
    assert text[..r.start] == text[..before] + text[before..r.start];
    Regrouped(text[..before], text[before..r.start], tokens[i], behind);
  }

  lemma Regrouped(a: string, b: string, c: string, d: string)
    ensures a + (b + (c + d)) == a + b + c + d
  {
  }

  lemma GapsFrom(text: string, picked: seq<Hit>, i: nat)
    requires InReadingOrder(picked, |text|) && i < |picked|
    ensures var r, before := picked[i], EndBefore(picked, i);
            Gaps(text, before, picked[i..]) == [text[before..r.start]] + Gaps(text, r.end, picked[i + 1..])
  {
    FromHere(picked, i);
  }

  lemma WovenFrom(text: string, picked: seq<Hit>, tokens: seq<string>, i: nat)
    requires InReadingOrder(picked, |text|) && |tokens| == |picked| && i < |picked|
    ensures var r, before := picked[i], EndBefore(picked, i);
            Woven(Gaps(text, before, picked[i..]), tokens[i..])
            == text[before..r.start] + (tokens[i] + Woven(Gaps(text, r.end, picked[i + 1..]), tokens[i + 1..]))
  {
    var r, before := picked[i], EndBefore(picked, i);
    var gaps, rest := Gaps(text, r.end, picked[i + 1..]), tokens[i + 1..];
    GapsFrom(text, picked, i);
    TokensFrom(tokens, i);
    assert |gaps| == |picked| - i && |rest| == |tokens| - i - 1;
    WovenOnward(text[before..r.start], gaps, tokens[i], rest);
  }

  lemma TokensFrom(tokens: seq<string>, i: nat)
    requires i < |tokens|
    ensures tokens[i..] == [tokens[i]] + tokens[i + 1..]
  {
  }

  // ---------- Filling the values back in ----------

  // A placeholder the vault has no value for, or only a blank one, stays as written.
  function Filled(values: map<string, string>, s: string): string
    decreases |s|
  {
    if s == [] then []
    else
      var n := MatchLen(s);
      if n == 0 then [s[0]] + Filled(values, s[1..])
      else
        var p := s[..n];
        (if p in values && values[p] != [] then values[p] else p) + Filled(values, s[n..])
  }

  function FilledEach(values: map<string, string>, texts: seq<string>): (r: seq<string>)
    ensures |r| == |texts| && forall i :: 0 <= i < |texts| ==> r[i] == Filled(values, texts[i])
  {
    if texts == [] then [] else [Filled(values, texts[0])] + FilledEach(values, texts[1..])
  }

  // Nothing placeholder-shaped starts in a and ends in b.
  ghost predicate IsSeam(a: string, b: string) {
    forall i :: 0 <= i < |a| ==> i + MatchLens(a + b)[i] <= |a|
  }

  lemma SeamMovesOn(a: string, b: string, k: nat)
    requires IsSeam(a, b) && k <= |a|
    ensures IsSeam(a[k..], b)
  {
    forall i | 0 <= i < |a[k..]| ensures i + MatchLens(a[k..] + b)[i] <= |a[k..]| {
      assert (a[k..] + b)[i..] == (a + b)[k + i..];
      assert MatchLens(a[k..] + b)[i] == MatchLens(a + b)[k + i];
    }
  }

  function FilledFront(values: map<string, string>, s: string, n: nat): string
    requires s != [] && n == MatchLen(s)
  {
    if n == 0 then [s[0]] else if s[..n] in values && values[s[..n]] != [] then values[s[..n]] else s[..n]
  }

  lemma FilledByFront(values: map<string, string>, s: string, n: nat, k: nat)
    requires s != [] && n == MatchLen(s) && k == if n == 0 then 1 else n
    ensures Filled(values, s) == FilledFront(values, s, n) + Filled(values, s[k..])
  {
  }

  lemma {:induction false} FilledAtSeam(values: map<string, string>, a: string, b: string)
    requires IsSeam(a, b)
    ensures Filled(values, a + b) == Filled(values, a) + Filled(values, b)
    decreases |a|
  {
    if a == [] {
      assert a + b == b;
      return;
    }
    assert MatchLens(a + b)[0] == MatchLen(a + b) by {
      assert (a + b)[0..] == a + b;
    }
    SameMatchBeforeSeam(a, b);
    var n := MatchLen(a);
    var k := if n == 0 then 1 else n;
    SeamMovesOn(a, b, k);
    FilledAtSeam(values, a[k..], b);
    var front, x, y := FilledFront(values, a, n), Filled(values, a[k..]), Filled(values, b);
    assert Filled(values, a) == front + x by {
      FilledByFront(values, a, n, k);
    }
    assert Filled(values, a + b) == front + (x + y) by {
      FilledByFront(values, a + b, n, k);
      CutInFirst(a, b, k);
      CutInFirst(a, b, n);
    }
    Associates(front, x, y);
  }

  lemma SameMatchBeforeSeam(a: string, b: string)
    requires a != [] && MatchLen(a + b) <= |a|
    ensures MatchLen(a) == MatchLen(a + b)
  {
    if MatchLen(a + b) > 0 {
      assert (a + b)[..MatchLen(a + b)] == a[..MatchLen(a + b)];
      PrefixDecides(a + b, a);
    } else if MatchLen(a) > 0 {
      assert (a + b)[..MatchLen(a)] == a[..MatchLen(a)];
      PrefixDecides(a, a + b);
    }
  }

  // No placeholder runs on into an opening bracket.
  lemma SeamBeforeBracket(a: string, b: string)
    requires b != [] && b[0] == '['
    ensures IsSeam(a, b)
  {
    forall i | 0 <= i < |a| ensures i + MatchLens(a + b)[i] <= |a| {
      if MatchLens(a + b)[i] > 0 {
        MatchShape((a + b)[i..]);
        assert (a + b)[i..][|a| - i] == '[';
      }
    }
  }

  lemma SeamAfterPlaceholder(k: Kind, n: nat, rest: string)
    ensures IsSeam(Placeholder(k, n), rest)
  {
    var p := Placeholder(k, n);
    PlaceholderMatches(k, n, rest);
    MatchShape(p + rest);
    forall i | 0 <= i < |p| ensures i + MatchLens(p + rest)[i] <= |p| {
      assert (p + rest)[i..][0] == (p + rest)[i];
      assert i == 0 ==> (p + rest)[0..] == p + rest;
    }
  }

  // ---------- The round trip ----------

  lemma {:induction false} OriginalsWoven(text: string, from: nat, picked: seq<Hit>)
    requires InReadingOrder(picked, |text|) && from <= |text| && (picked != [] ==> from <= picked[0].start)
    ensures Woven(Gaps(text, from, picked), Originals(text, picked)) == text[from..]
    decreases |picked|
  {
    if picked != [] {
      var h := picked[0];
      OriginalsWoven(text, h.end, picked[1..]);
      WovenOnward(text[from..h.start], Gaps(text, h.end, picked[1..]), text[h.start..h.end],
                  Originals(text, picked[1..]));
      CutThrice(text, from, h.start, h.end);
    }
  }

  lemma CutThrice(text: string, a: nat, b: nat, c: nat)
    requires a <= b <= c <= |text|
    ensures text[a..] == text[a..b] + (text[b..c] + text[c..])
  {
  }

  function Identity(l: Letters, h: Hit, original: string): (Kind, string) {
    (EntityKind(h.entity), Normalised(l, EntityKind(h.entity), original))
  }

  predicate IsToken(l: Letters, w: Vault, h: Hit, original: string, token: string) {
    Identity(l, h, original) in w.byValue && w.byValue[Identity(l, h, original)] == token
  }

  // A token is the placeholder of its hit's detail, and the vault holds a spelling of that detail for it.
  lemma TokenStandsForDetail(l: Letters, w: Vault, h: Hit, original: string, token: string)
    requires IsSound(l, w) && IsToken(l, w, h, original, token)
    ensures IsPlaceholder(token) && token in w.values
    ensures Normalised(l, EntityKind(h.entity), w.values[token]) == Normalised(l, EntityKind(h.entity), original)
  {
    assert IsOwn(l, w, Identity(l, h, original));
  }

  ghost predicate Grows(w: Vault, v: Vault) {
    forall id :: id in v.byValue ==> id in w.byValue && w.byValue[id] == v.byValue[id]
  }

  lemma FirstToken(l: Letters, v: Vault, h: Hit, original: string)
    ensures var (w, p) := Numbered(l, v, EntityKind(h.entity), original);
            Grows(w, v) && IsToken(l, w, h, original, p)
  {
  }

  lemma {:induction false} TokensKeepSound(l: Letters, v: Vault, text: string, picked: seq<Hit>)
    requires IsLetters(l) && IsSound(l, v) && InReadingOrder(picked, |text|)
    ensures IsSound(l, Tokens(l, v, text, picked).0)
    decreases |picked|
  {
    if picked != [] {
      var kind, original := EntityKind(picked[0].entity), text[picked[0].start..picked[0].end];
      NumberingKeepsSound(l, v, kind, original);
      TokensKeepSound(l, Numbered(l, v, kind, original).0, text, picked[1..]);
    }
  }

  predicate AreTokens(l: Letters, w: Vault, picked: seq<Hit>, originals: seq<string>, tokens: seq<string>)
    requires |originals| == |picked| == |tokens|
  {
    forall i :: 0 <= i < |picked| ==> IsToken(l, w, picked[i], originals[i], tokens[i])
  }

  lemma FirstAndRest(l: Letters, v: Vault, w: Vault, x: Vault, picked: seq<Hit>, original: string,
                     originals: seq<string>, token: string, tokens: seq<string>)
    requires |originals| + 1 == |picked| == |tokens| + 1
    requires Grows(w, v) && IsToken(l, w, picked[0], original, token)
    requires Grows(x, w) && AreTokens(l, x, picked[1..], originals, tokens)
    ensures Grows(x, v) && AreTokens(l, x, picked, [original] + originals, [token] + tokens)
  {
    forall i | 1 <= i < |picked| ensures IsToken(l, x, picked[i], originals[i - 1], tokens[i - 1]) {
      assert picked[1..][i - 1] == picked[i];
    }
  }

  lemma {:induction false} TokensAreTokens(l: Letters, v: Vault, text: string, picked: seq<Hit>)
    requires InReadingOrder(picked, |text|)
    ensures var (w, tokens) := Tokens(l, v, text, picked);
            Grows(w, v) && AreTokens(l, w, picked, Originals(text, picked), tokens)
    decreases |picked|
  {
    if picked != [] {
      var h := picked[0];
      var original := text[h.start..h.end];
      FirstToken(l, v, h, original);
      var (w, p) := Numbered(l, v, EntityKind(h.entity), original);
      TokensAreTokens(l, w, text, picked[1..]);
      var (x, rest) := Tokens(l, w, text, picked[1..]);
      FirstAndRest(l, v, w, x, picked, original, Originals(text, picked[1..]), p, rest);
    }
  }

  ghost predicate IsPlaceholder(token: string) {
    exists k, n :: token == Placeholder(k, n)
  }

  lemma FilledToken(values: map<string, string>, token: string)
    requires IsPlaceholder(token)
    ensures Filled(values, token) == if token in values && values[token] != [] then values[token] else token
  {
    var k, n :| token == Placeholder(k, n);
    PlaceholderMatches(k, n, []);
    assert token + [] == token && token[..|token|] == token && token[|token|..] == [];
  }

  lemma {:induction false} FilledTokens(values: map<string, string>, gaps: seq<string>, tokens: seq<string>)
    requires |gaps| == |tokens| + 1 && forall i :: 0 <= i < |tokens| ==> IsPlaceholder(tokens[i])
    ensures Filled(values, Woven(gaps, tokens)) == Woven(FilledEach(values, gaps), FilledEach(values, tokens))
    decreases |tokens|
  {
    if tokens != [] {
      var rest := Woven(gaps[1..], tokens[1..]);
      FilledTokens(values, gaps[1..], tokens[1..]);
      var k, n :| tokens[0] == Placeholder(k, n);
      SeamAfterPlaceholder(k, n, rest);
      FilledAtSeam(values, tokens[0], rest);
      SeamBeforeBracket(gaps[0], tokens[0] + rest);
      FilledAtSeam(values, gaps[0], tokens[0] + rest);
      assert FilledEach(values, gaps)[1..] == FilledEach(values, gaps[1..]);
      assert FilledEach(values, tokens)[1..] == FilledEach(values, tokens[1..]);
    }
  }

  ghost predicate MissesPlaceholders(text: string, picked: seq<Hit>) {
    forall c :: c in picked ==> !OverlapsAny(SpanOf(c), PlaceholderSpans(text))
  }

  // Nothing placeholder-shaped touches a picked hit.
  lemma NoMatchAcross(text: string, h: Hit, i: nat)
    requires Fits(h, |text|) && !OverlapsAny(SpanOf(h), PlaceholderSpans(text)) && i < h.end
    ensures MatchLens(text)[i] > 0 ==> i + MatchLens(text)[i] <= h.start
  {
    if MatchLens(text)[i] > 0 {
      MatchesAreApart(text);
      SpansAreAll(MatchLens(text), 0, i);
      assert !Overlap(SpanOf(h), Span(i, i + MatchLens(text)[i]));
    }
  }

  lemma CutTwice(text: string, from: nat, mid: nat, i: nat)
    requires from <= mid <= |text| && from + i <= |text|
    ensures text[from..] == text[from..mid] + text[mid..] && text[from..][i..] == text[from + i..]
  {
  }

  lemma SeamInText(text: string, from: nat, mid: nat)
    requires from <= mid <= |text| && forall i :: from <= i < mid ==> i + MatchLens(text)[i] <= mid
    ensures text[from..] == text[from..mid] + text[mid..] && IsSeam(text[from..mid], text[mid..])
  {
    CutTwice(text, from, mid, 0);
    forall i | 0 <= i < mid - from ensures i + MatchLens(text[from..])[i] <= mid - from {
      CutTwice(text, from, mid, i);
      assert MatchLens(text)[from + i] == MatchLens(text[from..])[i];
    }
  }

  lemma SeamsAtHit(text: string, from: nat, h: Hit)
    requires Fits(h, |text|) && from <= h.start && !OverlapsAny(SpanOf(h), PlaceholderSpans(text))
    ensures text[from..] == text[from..h.start] + text[h.start..] && IsSeam(text[from..h.start], text[h.start..])
    ensures text[h.start..] == text[h.start..h.end] + text[h.end..] && IsSeam(text[h.start..h.end], text[h.end..])
  {
    forall i: nat | i < h.end ensures MatchLens(text)[i] > 0 ==> i + MatchLens(text)[i] <= h.start {
      NoMatchAcross(text, h, i);
    }
    SeamInText(text, from, h.start);
    SeamInText(text, h.start, h.end);
  }

  lemma {:induction false} FilledPlain(values: map<string, string>, s: string)
    requires forall i :: 0 <= i < |s| ==> MatchLens(s)[i] == 0
    ensures Filled(values, s) == s
  {
    if s != [] {
      assert s[0..] == s && MatchLens(s)[0] == MatchLen(s);
      forall i | 0 <= i < |s[1..]| ensures MatchLens(s[1..])[i] == 0 {
        assert s[1..][i..] == s[i + 1..];
        assert MatchLens(s)[i + 1] == 0;
      }
      FilledPlain(values, s[1..]);
    }
  }

  lemma RestOfCut(text: string, start: nat, end: nat, i: nat)
    requires start + i <= end <= |text|
    ensures text[start + i..] == text[start..end][i..] + text[end..]
  {
  }

  lemma NoMatchInHit(text: string, h: Hit, i: nat)
    requires Fits(h, |text|) && !OverlapsAny(SpanOf(h), PlaceholderSpans(text)) && i < h.end - h.start
    ensures MatchLen(text[h.start..h.end][i..]) == 0
  {
    var s, t := text[h.start..h.end][i..], text[h.start + i..];
    NoMatchAcross(text, h, h.start + i);
    RestOfCut(text, h.start, h.end, i);
    if MatchLen(s) > 0 {
      PrefixDecides(s, t);
    }
  }

  lemma FilledAtHit(values: map<string, string>, text: string, from: nat, h: Hit)
    requires Fits(h, |text|) && from <= h.start && !OverlapsAny(SpanOf(h), PlaceholderSpans(text))
    ensures Filled(values, text[from..])
            == Filled(values, text[from..h.start]) + (text[h.start..h.end] + Filled(values, text[h.end..]))
  {
    var b := text[h.start..h.end];
    SeamsAtHit(text, from, h);
    FilledAtSeam(values, text[from..h.start], text[h.start..]);
    FilledAtSeam(values, b, text[h.end..]);
    forall i | 0 <= i < |b| ensures MatchLens(b)[i] == 0 {
      NoMatchInHit(text, h, i);
    }
    FilledPlain(values, b);
  }

  lemma OneMoreGap(values: map<string, string>, gap: string, gaps: seq<string>, insert: string, inserts: seq<string>)
    requires |gaps| == |inserts| + 1
    ensures Woven(FilledEach(values, [gap] + gaps), [insert] + inserts)
            == Filled(values, gap) + (insert + Woven(FilledEach(values, gaps), inserts))
  {
    WovenOnward(Filled(values, gap), FilledEach(values, gaps), insert, inserts);
    assert ([gap] + gaps)[1..] == gaps;
  }

  lemma {:induction false} FilledText(values: map<string, string>, text: string, from: nat, picked: seq<Hit>)
    requires InReadingOrder(picked, |text|) && from <= |text| && (picked != [] ==> from <= picked[0].start)
    requires MissesPlaceholders(text, picked)
    ensures Filled(values, text[from..]) == Woven(FilledEach(values, Gaps(text, from, picked)), Originals(text, picked))
    decreases |picked|
  {
    if picked != [] {
      var h := picked[0];
      FilledText(values, text, h.end, picked[1..]);
      FilledAtHit(values, text, from, h);
      OneMoreGap(values, text[from..h.start], Gaps(text, h.end, picked[1..]), text[h.start..h.end],
                 Originals(text, picked[1..]));
    }
  }

  // Two hits get one placeholder exactly when they are of one kind and one detail of it.
  lemma TokensTellDetailsApart(l: Letters, v: Vault, text: string, picked: seq<Hit>, i: nat, j: nat)
    requires IsLetters(l) && IsSound(l, v) && InReadingOrder(picked, |text|) && i < |picked| && j < |picked|
    ensures var tokens, originals := Tokens(l, v, text, picked).1, Originals(text, picked);
            tokens[i] == tokens[j] <==>
            && EntityKind(picked[i].entity) == EntityKind(picked[j].entity)
            && SameDetail(l, EntityKind(picked[i].entity), originals[i], originals[j])
  {
    var originals := Originals(text, picked);
    SameDetailExactly(l, EntityKind(picked[i].entity), originals[i], originals[j]);
    TokensAreApart(l, v, text, picked, i, j);
  }

  lemma TokensAreApart(l: Letters, v: Vault, text: string, picked: seq<Hit>, i: nat, j: nat)
    requires IsLetters(l) && IsSound(l, v) && InReadingOrder(picked, |text|) && i < |picked| && j < |picked|
    ensures var tokens, originals := Tokens(l, v, text, picked).1, Originals(text, picked);
            tokens[i] == tokens[j] <==> Identity(l, picked[i], originals[i]) == Identity(l, picked[j], originals[j])
  {
    TokensAreTokens(l, v, text, picked);
    TokensKeepSound(l, v, text, picked);
  }

  lemma NothingMatches(text: string)
    requires PlaceholderSpans(text) == []
    ensures forall i :: 0 <= i < |text| ==> MatchLens(text)[i] == 0
  {
    MatchesAreApart(text);
    forall i | 0 <= i < |text| ensures MatchLens(text)[i] == 0 {
      if MatchLens(text)[i] > 0 {
        SpansAreAll(MatchLens(text), 0, i);
      }
    }
  }

  // A text with nothing placeholder-shaped in it, and any piece of one, is left alone by filling.
  lemma PlainPieceStays(values: map<string, string>, text: string, start: nat, end: nat)
    requires PlaceholderSpans(text) == [] && start <= end <= |text|
    ensures Filled(values, text[start..end]) == text[start..end]
  {
    var piece := text[start..end];
    NothingMatches(text);
    forall i | 0 <= i < |piece| ensures MatchLens(piece)[i] == 0 {
      RestOfCut(text, start, end, i);
      assert MatchLens(text)[start + i] == 0;
      if MatchLen(piece[i..]) > 0 {
        PrefixDecides(piece[i..], text[start + i..]);
      }
    }
    FilledPlain(values, piece);
  }

  lemma PlainTextStays(values: map<string, string>, text: string)
    requires PlaceholderSpans(text) == []
    ensures Filled(values, text) == text
  {
    PlainPieceStays(values, text, 0, |text|);
    assert text[0..|text|] == text;
  }

  lemma {:induction false} PlainGapsStay(values: map<string, string>, text: string, from: nat, picked: seq<Hit>)
    requires InReadingOrder(picked, |text|) && from <= |text| && (picked != [] ==> from <= picked[0].start)
    requires PlaceholderSpans(text) == []
    ensures FilledEach(values, Gaps(text, from, picked)) == Gaps(text, from, picked)
    decreases |picked|
  {
    if picked == [] {
      PlainPieceStays(values, text, from, |text|);
      assert text[from..|text|] == text[from..];
    } else {
      PlainPieceStays(values, text, from, picked[0].start);
      PlainGapsStay(values, text, picked[0].end, picked[1..]);
    }
  }

  // ---------- Which spelling is kept ----------

  // The first of the picked hits that are this detail, as written.
  function FirstSpelling(l: Letters, picked: seq<Hit>, originals: seq<string>, id: (Kind, string)): Option<string>
    requires |originals| == |picked|
    decreases |picked|
  {
    if picked == [] then None
    else if Identity(l, picked[0], originals[0]) == id then Some(originals[0])
    else FirstSpelling(l, picked[1..], originals[1..], id)
  }

  // The spelling the vault has for a detail.
  function ValueOf(v: Vault, id: (Kind, string)): Option<string> {
    if id in v.byValue && v.byValue[id] in v.values then Some(v.values[v.byValue[id]]) else None
  }

  // The vault's own if it knew the detail, and else the first one, trimmed.
  function KeptSpelling(l: Letters, v: Vault, picked: seq<Hit>, originals: seq<string>, id: (Kind, string))
      : Option<string>
    requires |originals| == |picked|
  {
    if ValueOf(v, id).Some? then ValueOf(v, id)
    else
      match FirstSpelling(l, picked, originals, id)
      case None => None
      case Some(first) => Some(Trimmed(l, first))
  }

  lemma NumberingKeeps(l: Letters, v: Vault, kind: Kind, value: string, id: (Kind, string))
    requires id in v.byValue ==> v.byValue[id] in v.values
    requires Placeholder(kind, CountOf(v, kind) + 1) !in v.values
    ensures ValueOf(Numbered(l, v, kind, value).0, id)
            == if ValueOf(v, id).Some? then ValueOf(v, id)
               else if id == (kind, Normalised(l, kind, value)) then Some(Trimmed(l, value))
               else None
  {
  }

  lemma NumberingKeepsInSound(l: Letters, v: Vault, kind: Kind, value: string, id: (Kind, string))
    requires IsSound(l, v)
    ensures ValueOf(Numbered(l, v, kind, value).0, id)
            == if ValueOf(v, id).Some? then ValueOf(v, id)
               else if id == (kind, Normalised(l, kind, value)) then Some(Trimmed(l, value))
               else None
  {
    assert id in v.byValue ==> IsOwn(l, v, id);
    NumberedIsNew(l, v, kind);
    NumberingKeeps(l, v, kind, value, id);
  }

  lemma {:induction false} KeptSpellingIsKept(l: Letters, v: Vault, text: string, picked: seq<Hit>, id: (Kind, string))
    requires IsLetters(l) && IsSound(l, v) && InReadingOrder(picked, |text|)
    ensures ValueOf(Tokens(l, v, text, picked).0, id) == KeptSpelling(l, v, picked, Originals(text, picked), id)
    decreases |picked|
  {
    if picked != [] {
      var kind, original := EntityKind(picked[0].entity), text[picked[0].start..picked[0].end];
      var w := Numbered(l, v, kind, original).0;
      NumberingKeepsSound(l, v, kind, original);
      NumberingKeepsInSound(l, v, kind, original, id);
      KeptSpellingIsKept(l, w, text, picked[1..], id);
      KeptSpellingStep(l, v, w, picked, Originals(text, picked), id);
    }
  }

  lemma KeptSpellingStep(l: Letters, v: Vault, w: Vault, picked: seq<Hit>, originals: seq<string>, id: (Kind, string))
    requires |originals| == |picked| > 0
    requires ValueOf(w, id) == if ValueOf(v, id).Some? then ValueOf(v, id)
                               else if id == Identity(l, picked[0], originals[0]) then Some(Trimmed(l, originals[0]))
                               else None
    ensures KeptSpelling(l, v, picked, originals, id) == KeptSpelling(l, w, picked[1..], originals[1..], id)
  {
  }

  lemma {:induction false} HasASpelling(l: Letters, picked: seq<Hit>, originals: seq<string>, i: nat)
    requires |originals| == |picked| && i < |picked|
    ensures FirstSpelling(l, picked, originals, Identity(l, picked[i], originals[i])).Some?
    decreases |picked|
  {
    if i > 0 {
      HasASpelling(l, picked[1..], originals[1..], i - 1);
    }
  }

  // The value kept for the i-th picked detail is blank: the vault's was, or the first hit of that detail is.
  predicate IsLostAt(l: Letters, v: Vault, picked: seq<Hit>, originals: seq<string>, i: nat)
    requires |originals| == |picked| && i < |picked|
  {
    var id := Identity(l, picked[i], originals[i]);
    if ValueOf(v, id).Some? then ValueOf(v, id).value == []
    else
      match FirstSpelling(l, picked, originals, id)
      case None => false
      case Some(first) => IsBlank(l, first)
  }

  // What filling puts in a token's place: another spelling of the same detail, or the token itself where it is lost.
  ghost predicate IsBack(l: Letters, h: Hit, original: string, token: string, filled: string, isLost: bool) {
    if isLost then filled == token
    else filled != [] && SameDetail(l, EntityKind(h.entity), filled, original)
  }

  // A picked detail is kept blank exactly when it is lost.
  lemma KeptBlankExactly(l: Letters, v: Vault, picked: seq<Hit>, originals: seq<string>, i: nat)
    requires |originals| == |picked| && i < |picked|
    ensures var kept := KeptSpelling(l, v, picked, originals, Identity(l, picked[i], originals[i]));
            kept.Some? && (kept.value == [] <==> IsLostAt(l, v, picked, originals, i))
  {
    var id := Identity(l, picked[i], originals[i]);
    HasASpelling(l, picked, originals, i);
    TrimmedIsEmptyExactly(l, FirstSpelling(l, picked, originals, id).value);
  }

  // So it has no value to be filled with exactly when it is lost.
  lemma LostExactly(l: Letters, v: Vault, text: string, results: seq<Hit>, i: nat)
    requires IsLetters(l) && IsSound(l, v) && i < |PickedIn(text, results)|
    ensures var picked := PickedIn(text, results);
            var (w, tokens) := Tokens(l, v, text, picked);
            var originals := Originals(text, picked);
            && IsPlaceholder(tokens[i]) && tokens[i] in w.values
            && (w.values[tokens[i]] == [] <==> IsLostAt(l, v, picked, originals, i))
            && IsBack(l, picked[i], originals[i], tokens[i], Filled(w.values, tokens[i]),
                      IsLostAt(l, v, picked, originals, i))
  {
    var picked := PickedIn(text, results);
    var (w, tokens) := Tokens(l, v, text, picked);
    var originals := Originals(text, picked);
    var id := Identity(l, picked[i], originals[i]);
    TokensAreTokens(l, v, text, picked);
    TokensKeepSound(l, v, text, picked);
    TokenStandsForDetail(l, w, picked[i], originals[i], tokens[i]);
    SameDetailExactly(l, EntityKind(picked[i].entity), w.values[tokens[i]], originals[i]);
    FilledToken(w.values, tokens[i]);
    KeptSpellingIsKept(l, v, text, picked, id);
    KeptBlankExactly(l, v, picked, originals, i);
    assert ValueOf(w, id) == Some(w.values[tokens[i]]);
  }

  /**
   Filling the vault's values into the masked text gives what filling them into the original gives, but for the
   picked details: each comes back in another spelling of the same detail, or, exactly where it is lost, as its
   placeholder.
   */
  lemma FillGivesBack(l: Letters, v: Vault, text: string, results: seq<Hit>)
    requires IsLetters(l) && IsSound(l, v)
    ensures var picked := PickedIn(text, results);
            var (w, tokens) := Tokens(l, v, text, picked);
            var gaps, originals := Gaps(text, 0, picked), Originals(text, picked);
            && text == Woven(gaps, originals)
            && Filled(w.values, Woven(gaps, tokens)) == Woven(FilledEach(w.values, gaps), FilledEach(w.values, tokens))
            && Filled(w.values, text) == Woven(FilledEach(w.values, gaps), originals)
            && forall i :: 0 <= i < |picked| ==>
                 IsBack(l, picked[i], originals[i], tokens[i], FilledEach(w.values, tokens)[i],
                        IsLostAt(l, v, picked, originals, i))
  {
    var picked := PickedIn(text, results);
    var (w, tokens) := Tokens(l, v, text, picked);
    var originals := Originals(text, picked);
    PickedExactly(results, |text|, PlaceholderSpans(text));
    forall i | 0 <= i < |picked|
      ensures IsPlaceholder(tokens[i])
      ensures IsBack(l, picked[i], originals[i], tokens[i], Filled(w.values, tokens[i]),
                     IsLostAt(l, v, picked, originals, i))
    {
      LostExactly(l, v, text, results, i);
    }
    OriginalsWoven(text, 0, picked);
    FilledTokens(w.values, Gaps(text, 0, picked), tokens);
    FilledText(w.values, text, 0, picked);
    assert text[0..] == text;
  }

  /**
   End to end, for a text with nothing placeholder-shaped in it: what is masked and filled back is that text, with
   each picked detail in the spelling kept for it.
   */
  lemma RoundTrip(l: Letters, v: Vault, text: string, results: seq<Hit>)
    requires IsLetters(l) && IsSound(l, v) && PlaceholderSpans(text) == []
    ensures var picked := PickedIn(text, results);
            var (w, tokens) := Tokens(l, v, text, picked);
            var gaps, originals, filled := Gaps(text, 0, picked), Originals(text, picked), FilledEach(w.values, tokens);
            && text == Woven(gaps, originals)
            && Filled(w.values, Woven(gaps, tokens)) == Woven(gaps, filled)
            && forall i :: 0 <= i < |picked| ==>
                 IsBack(l, picked[i], originals[i], tokens[i], filled[i], IsLostAt(l, v, picked, originals, i))
  {
    FillGivesBack(l, v, text, results);
    PlainGapsStay(Tokens(l, v, text, PickedIn(text, results)).0.values, text, 0, PickedIn(text, results));
  }

  ghost predicate HasNoBlank(v: Vault) {
    forall p :: p in v.values ==> v.values[p] != []
  }

  // Where no value of the vault is blank and no picked hit covers only spaces, nothing is lost.
  lemma NothingIsLost(l: Letters, v: Vault, picked: seq<Hit>, originals: seq<string>, i: nat)
    requires |originals| == |picked| && i < |picked|
    requires HasNoBlank(v) && forall o :: o in originals ==> !IsBlank(l, o)
    ensures !IsLostAt(l, v, picked, originals, i)
  {
    FirstIsOneOfThem(l, picked, originals, Identity(l, picked[i], originals[i]));
  }

  // Nor is it in any text masked with that vault later.
  lemma {:induction false} NoBlankIsAdded(l: Letters, v: Vault, text: string, picked: seq<Hit>)
    requires InReadingOrder(picked, |text|) && HasNoBlank(v)
    requires forall i :: 0 <= i < |picked| ==> !IsBlank(l, text[picked[i].start..picked[i].end])
    ensures HasNoBlank(Tokens(l, v, text, picked).0)
    decreases |picked|
  {
    if picked != [] {
      var kind, original := EntityKind(picked[0].entity), text[picked[0].start..picked[0].end];
      TrimmedIsEmptyExactly(l, original);
      NoBlankIsAdded(l, Numbered(l, v, kind, original).0, text, picked[1..]);
    }
  }

  lemma {:induction false} FirstIsOneOfThem(l: Letters, picked: seq<Hit>, originals: seq<string>, id: (Kind, string))
    requires |originals| == |picked|
    ensures var first := FirstSpelling(l, picked, originals, id);
            first.Some? ==> first.value in originals
    decreases |picked|
  {
    if picked != [] {
      FirstIsOneOfThem(l, picked[1..], originals[1..], id);
    }
  }

  /**
   The promise as a caller can rely on it: with no blank value in the vault and no blank hit, masking and filling a
   text without placeholder shapes gives that text, each picked detail in a spelling of that detail.
   */
  lemma CleanRoundTrip(l: Letters, v: Vault, text: string, results: seq<Hit>)
    requires IsLetters(l) && IsSound(l, v) && PlaceholderSpans(text) == [] && HasNoBlank(v)
    requires forall o :: o in Originals(text, PickedIn(text, results)) ==> !IsBlank(l, o)
    ensures var picked := PickedIn(text, results);
            var (w, tokens) := Tokens(l, v, text, picked);
            var gaps, originals, filled := Gaps(text, 0, picked), Originals(text, picked), FilledEach(w.values, tokens);
            && text == Woven(gaps, originals)
            && Filled(w.values, Woven(gaps, tokens)) == Woven(gaps, filled)
            && forall i :: 0 <= i < |picked| ==>
                 IsBack(l, picked[i], originals[i], tokens[i], filled[i], false)
  {
    var picked := PickedIn(text, results);
    RoundTrip(l, v, text, results);
    forall i | 0 <= i < |picked| ensures !IsLostAt(l, v, picked, Originals(text, picked), i) {
      NothingIsLost(l, v, picked, Originals(text, picked), i);
    }
  }

  // An account hit that covers a space, and after it one that covers two hyphens: neither comes back, though only
  // the first is blank.
  lemma BlankHitLosesAnother(l: Letters, a: Hit, b: Hit)
    requires IsLetters(l) && !IsPlain(l.lower('-'))
    requires EntityKind(a.entity) == Account && EntityKind(b.entity) == Account
    requires a.start == 0 && a.end == 1 && b.start == 1 && b.end == 3
    ensures var text := " --";
            && PickedIn(text, [a, b]) == [a, b] && Originals(text, [a, b]) == [" ", "--"]
            && AllStayTokens(l, EMPTY, text, [a, b])
  {
    var text := " --";
    TwoArePicked(text, a, b);
    TwoOriginals(text, a, b);
    SameIdentity(l, a, b);
    BothStay(l, text, [a, b]);
  }

  lemma BothStay(l: Letters, text: string, hits: seq<Hit>)
    requires IsLetters(l) && |hits| == 2 && PickedIn(text, hits) == hits
    requires var originals := Originals(text, hits);
             && IsBlank(l, originals[0])
             && Identity(l, hits[0], originals[0]) == Identity(l, hits[1], originals[1])
    ensures AllStayTokens(l, EMPTY, text, hits)
  {
    EmptyIsSound(l);
    BothAreLost(l, hits, Originals(text, hits));
    AllLost(l, EMPTY, text, hits);
  }

  lemma SameIdentity(l: Letters, a: Hit, b: Hit)
    requires IsLetters(l) && !IsPlain(l.lower('-'))
    requires EntityKind(a.entity) == Account && EntityKind(b.entity) == Account
    ensures Identity(l, a, " ") == Identity(l, b, "--") && IsBlank(l, " ")
  {
    SameNormalForm(l);
  }

  // Filling leaves each of the tokens as it is.
  predicate AllStayTokens(l: Letters, v: Vault, text: string, results: seq<Hit>) {
    var (w, tokens) := Tokens(l, v, text, PickedIn(text, results));
    FilledEach(w.values, tokens) == tokens
  }

  lemma AllLost(l: Letters, v: Vault, text: string, results: seq<Hit>)
    requires IsLetters(l) && IsSound(l, v)
    requires var picked := PickedIn(text, results);
             forall i :: 0 <= i < |picked| ==> IsLostAt(l, v, picked, Originals(text, picked), i)
    ensures AllStayTokens(l, v, text, results)
  {
    var picked := PickedIn(text, results);
    var (w, tokens) := Tokens(l, v, text, picked);
    forall i | 0 <= i < |picked| ensures FilledEach(w.values, tokens)[i] == tokens[i] {
      LostExactly(l, v, text, results, i);
    }
  }

  lemma BothAreLost(l: Letters, picked: seq<Hit>, originals: seq<string>)
    requires |picked| == |originals| == 2 && IsBlank(l, originals[0])
    requires Identity(l, picked[0], originals[0]) == Identity(l, picked[1], originals[1])
    ensures IsLostAt(l, EMPTY, picked, originals, 0) && IsLostAt(l, EMPTY, picked, originals, 1)
  {
  }

  lemma TwoOriginals(text: string, a: Hit, b: Hit)
    requires text == " --" && a.start == 0 && a.end == 1 && b.start == 1 && b.end == 3
    ensures InReadingOrder([a, b], 3) && Originals(text, [a, b]) == [" ", "--"]
  {
    var originals := Originals(text, [a, b]);
    assert originals[0] == text[0..1] == " " && originals[1] == text[1..3] == "--";
  }

  lemma SameNormalForm(l: Letters)
    requires IsLetters(l) && !IsPlain(l.lower('-'))
    ensures Normalised(l, Account, " ") == [] && Normalised(l, Account, "--") == []
  {
    var space, hyphen := [l.lower(' ')], [l.lower('-')];
    assert Lowered(l, " ") == space && Lowered(l, "--") == hyphen + hyphen;
    assert space[1..] == [] && hyphen[1..] == [] && (hyphen + hyphen)[1..] == hyphen;
    assert Kept(hyphen) == [];
  }

  lemma TwoArePicked(text: string, a: Hit, b: Hit)
    requires text == " --" && a.start == 0 && a.end == 1 && b.start == 1 && b.end == 3
    ensures PickedIn(text, [a, b]) == [a, b]
  {
    assert MatchLens(text) == [0, 0, 0] by {
      assert forall i :: 0 <= i < 3 ==> text[i..][0] != '[';
    }
    assert PlaceholderSpans(text) == [] by {
      var lens := MatchLens(text);
      assert Spans(lens, 3) == [] && Spans(lens, 2) == [] && Spans(lens, 1) == [];
    }
    TwoAreOrdered(a, b);
  }

  lemma TwoAreOrdered(a: Hit, b: Hit)
    requires a.start == 0 && a.end == 1 && b.start == 1 && b.end == 3
    ensures ByStart(Chosen(BestFirst([a, b]), 3, [])) == [a, b]
  {
    LongerFirst(a, b);
    BothChosen(a, b);
    EarlierInFront(a, b);
  }

  lemma EarlierInFront(a: Hit, b: Hit)
    requires a.start < b.start
    ensures ByStart([b, a]) == [a, b]
  {
    assert [b, a][..1] == [b] && [b][..0] == [];
    assert ByStart([b]) == [b];
    assert Placed([b], a) == [a, b];
  }

  lemma LongerFirst(a: Hit, b: Hit)
    requires Length(a) < Length(b)
    ensures BestFirst([a, b]) == [b, a]
  {
    assert [a, b][..1] == [a] && [a][..0] == [];
    assert BestFirst([a]) == [a];
    assert Inserted([a], b) == [b, a];
  }

  lemma BothChosen(a: Hit, b: Hit)
    requires a.start == 0 && a.end == 1 && b.start == 1 && b.end == 3
    ensures Chosen([b, a], 3, []) == [b, a]
  {
    var taken := [SpanOf(b)];
    assert [b, a][1..] == [a] && [a][1..] == [] && [] + taken == taken;
    assert Chosen([a], 3, taken) == [a] + Chosen([], 3, taken + [SpanOf(a)]);
  }

  // ---------- Attachments ----------

  // One chunk's hits, or the recogniser's failure.
  datatype Recognised = Hits(results: seq<Hit>) | Unavailable

  predicate IsDegraded(answers: seq<Recognised>) {
    exists a | a in answers :: a.Unavailable?
  }

  // The vault and the text once every chunk is masked.
  function MaskedChunks(l: Letters, v: Vault, chunks: seq<string>, answers: seq<Recognised>): (Vault, string)
    requires |answers| == |chunks|
    decreases |chunks|
  {
    if chunks == [] || answers[0].Unavailable? then (v, "")
    else
      var picked := PickedIn(chunks[0], answers[0].results);
      var (w, tokens) := Tokens(l, v, chunks[0], picked);
      var (x, rest) := MaskedChunks(l, w, chunks[1..], answers[1..]);
      (x, Woven(Gaps(chunks[0], 0, picked), tokens) + rest)
  }

  // The text so far and that of the chunks from the i-th on.
  ghost function MaskedOn(l: Letters, v: Vault, chunks: seq<string>, answers: seq<Recognised>, i: nat, masked: string)
      : (Vault, string)
    requires |answers| == |chunks| && i <= |chunks|
  {
    var (w, rest) := MaskedChunks(l, v, chunks[i..], answers[i..]);
    (w, masked + rest)
  }

  lemma MaskedOnEnds(l: Letters, v: Vault, chunks: seq<string>, answers: seq<Recognised>, masked: string)
    requires |answers| == |chunks|
    ensures MaskedOn(l, v, chunks, answers, 0, "") == MaskedChunks(l, v, chunks, answers)
    ensures MaskedOn(l, v, chunks, answers, |chunks|, masked) == (v, masked)
  {
    assert chunks[0..] == chunks && answers[0..] == answers;
    assert "" + MaskedChunks(l, v, chunks, answers).1 == MaskedChunks(l, v, chunks, answers).1;
    assert chunks[|chunks|..] == [] && masked + "" == masked;
  }

  lemma MaskedOnFails(l: Letters, v: Vault, chunks: seq<string>, answers: seq<Recognised>, i: nat, masked: string)
    requires |answers| == |chunks| && i < |chunks| && answers[i].Unavailable?
    ensures MaskedOn(l, v, chunks, answers, i, masked).0 == v
  {
    FromHere(answers, i);
  }

  lemma MaskedOnStep(l: Letters, v: Vault, chunks: seq<string>, answers: seq<Recognised>, i: nat, masked: string)
    requires |answers| == |chunks| && i < |chunks| && answers[i].Hits?
    ensures var picked := PickedIn(chunks[i], answers[i].results);
            var (w, tokens) := Tokens(l, v, chunks[i], picked);
            MaskedOn(l, v, chunks, answers, i, masked)
            == MaskedOn(l, w, chunks, answers, i + 1, masked + Woven(Gaps(chunks[i], 0, picked), tokens))
  {
    var picked := PickedIn(chunks[i], answers[i].results);
    var (w, tokens) := Tokens(l, v, chunks[i], picked);
    FromHere(chunks, i);
    FromHere(answers, i);
    var rest := MaskedChunks(l, w, chunks[i + 1..], answers[i + 1..]).1;
    Associates(masked, Woven(Gaps(chunks[i], 0, picked), tokens), rest);
  }

  // Chunk by chunk into the same vault, until the recogniser fails on one: then the text is the pattern floor's, whole,
  // and the vault keeps what was numbered by then.
  method MaskChunks(chunks: seq<string>, answers: seq<Recognised>, v: DetailVault)
    returns (masked: string, isDegraded: bool)
    requires |answers| == |chunks|
    modifies v
    ensures isDegraded <==> IsDegraded(answers)
    ensures v.View() == MaskedChunks(v.letters, old(v.View()), chunks, answers).0
    ensures masked == if isDegraded then Flat(chunks) else MaskedChunks(v.letters, old(v.View()), chunks, answers).1
  {
    masked, isDegraded := "", false;
    MaskedOnEnds(v.letters, v.View(), chunks, answers, "");
    for i := 0 to |chunks|
      invariant forall j :: 0 <= j < i ==> answers[j].Hits?
      invariant MaskedOn(v.letters, v.View(), chunks, answers, i, masked)
                == MaskedChunks(v.letters, old(v.View()), chunks, answers)
    {
      match answers[i]
      case Unavailable =>
        MaskedOnFails(v.letters, v.View(), chunks, answers, i, masked);
        return Flat(chunks), true;
      case Hits(results) =>
        MaskedOnStep(v.letters, v.View(), chunks, answers, i, masked);
        var piece := ReplaceEntities(chunks[i], results, v);
        masked := masked + piece;
    }
    MaskedOnEnds(v.letters, v.View(), chunks, answers, masked);
  }

  // What the pattern floor finds is numbered first, in the order it finds it.
  function NumberedAll(l: Letters, v: Vault, found: seq<(Kind, string)>): Vault {
    if found == [] then v
    else
      var last := found[|found| - 1];
      Numbered(l, NumberedAll(l, v, found[..|found| - 1]), last.0, last.1).0
  }

  method NumberFloor(found: seq<(Kind, string)>, v: DetailVault)
    modifies v
    ensures v.View() == NumberedAll(v.letters, old(v.View()), found)
  {
    for i := 0 to |found|
      invariant v.View() == NumberedAll(v.letters, old(v.View()), found[..i])
    {
      assert found[..i + 1][..i] == found[..i];
      var p := v.PlaceholderFor(found[i].0, found[i].1);
    }
    assert found[..|found|] == found;
  }

  /**
   Text that is dropped for want of the recogniser leaves nothing behind in the email's vault; text that is kept
   leaves what masking it numbered. `found` and `chunks` are the pattern floor's details and its text cut up.
   */
  method MaskAttachmentText(found: seq<(Kind, string)>, chunks: seq<string>, answers: seq<Recognised>, v: DetailVault)
    returns (masked: string)
    requires |answers| == |chunks|
    modifies v
    ensures IsDegraded(answers) ==> masked == "" && v.View() == old(v.View())
    ensures !IsDegraded(answers) ==>
      (v.View(), masked) == MaskedChunks(v.letters, NumberedAll(v.letters, old(v.View()), found), chunks, answers)
  {
    var scratch := v.Fork();
    NumberFloor(found, scratch);
    var isDegraded;
    masked, isDegraded := MaskChunks(chunks, answers, scratch);
    if isDegraded {
      return "";
    }
    v.Take(scratch);
  }
}
