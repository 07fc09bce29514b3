/**
 Restorable masking: the vault that numbers one email's personal details, and the placeholders it hands out. What
 Unicode calls a space, and how it lowers a letter, is a parameter (Letters).
 */
module Details {
  import opened Common
  import opened Decimal
  import opened Spellings

  datatype Kind = Person | Email | Phone | Ic | Passport | Account | Card | Location | Org

  predicate IsUpper(c: char) {
    'A' <= c <= 'Z'
  }

  function Name(k: Kind): (name: string)
    ensures name != [] && forall i :: 0 <= i < |name| ==> IsUpper(name[i])
  {
    match k
    case Person => "PERSON" case Email => "EMAIL" case Phone => "PHONE" case Ic => "IC" case Passport => "PASSPORT"
    case Account => "ACCOUNT" case Card => "CARD" case Location => "LOCATION" case Org => "ORG"
  }

  predicate IsName(s: string) {
    s == "PERSON" || s == "EMAIL" || s == "PHONE" || s == "IC" || s == "PASSPORT" || s == "ACCOUNT" || s == "CARD"
    || s == "LOCATION" || s == "ORG"
  }

  // ---------- When two spellings are one detail ----------

  function Normalised(l: Letters, kind: Kind, value: string): string {
    if kind.Person? || kind.Location? || kind.Org? then Spaced(l, Lowered(l, value), false, false)
    else Kept(Lowered(l, value))
  }

  /**
   When two values are one detail: names, places and organisations by their words, everything else by its letters and
   digits; both of the lowered text.
   */
  ghost predicate SameDetail(l: Letters, kind: Kind, value: string, other: string) {
    if kind.Person? || kind.Location? || kind.Org? then SameWords(l, Lowered(l, value), Lowered(l, other))
    else SamePlain(Lowered(l, value), Lowered(l, other))
  }

  lemma SameDetailExactly(l: Letters, kind: Kind, value: string, other: string)
    requires IsLetters(l)
    ensures Normalised(l, kind, value) == Normalised(l, kind, other) <==> SameDetail(l, kind, value, other)
  {
    if kind.Person? || kind.Location? || kind.Org? {
      SameSpacedExactly(l, Lowered(l, value), Lowered(l, other));
    } else {
      SameKeptExactly(Lowered(l, value), Lowered(l, other));
    }
  }

  // Trimming the spelling leaves its normal form alone.
  lemma {:induction false} TrimmedIsTheSame(l: Letters, kind: Kind, value: string)
    requires IsLetters(l)
    ensures Normalised(l, kind, Trimmed(l, value)) == Normalised(l, kind, value)
    decreases |value|
  {
    if value == [] {
    } else if l.isSpace(value[0]) {
      TrimmedIsTheSame(l, kind, value[1..]);
      assert Lowered(l, value)[1..] == Lowered(l, value[1..]);
    } else if l.isSpace(value[|value| - 1]) {
      TrimmedIsTheSame(l, kind, value[..|value| - 1]);
      LastSpaceIsIgnored(l, kind, value);
    }
  }

  lemma LastSpaceIsIgnored(l: Letters, kind: Kind, value: string)
    requires IsLetters(l) && value != [] && l.isSpace(value[|value| - 1])
    ensures Normalised(l, kind, value[..|value| - 1]) == Normalised(l, kind, value)
  {
    var start, c := value[..|value| - 1], l.lower(value[|value| - 1]);
    assert Lowered(l, value) == Lowered(l, start) + [c];
    SpacedBeforeSpace(l, Lowered(l, start), c, false, false);
    KeptBeforeOther(Lowered(l, start), c);
  }

  // ---------- Placeholders ----------

  function Placeholder(k: Kind, n: nat): string {
    "[" + Name(k) + "_" + Digits(n) + "]"
  }

  lemma PlaceholderParts(k: Kind, n: nat)
    ensures var p, a := Placeholder(k, n), |Name(k)| + 1;
            p[0] == '[' && p[1..a] == Name(k) && p[a] == '_' && p[a + 1..|p| - 1] == Digits(n) && p[|p| - 1] == ']'
  {
  }

  lemma PlaceholdersAreDistinct(k: Kind, m: nat, j: Kind, n: nat)
    requires Placeholder(k, m) == Placeholder(j, n)
    ensures k == j && m == n
  {
    PlaceholderParts(k, m);
    PlaceholderParts(j, n);
    NamesAreDistinct(k, j);
    DigitsAreInjective(m, n);
  }

  lemma NamesAreDistinct(k: Kind, j: Kind)
    requires Name(k) == Name(j)
    ensures k == j
  {
    assert |Name(k)| == |Name(j)| && Name(k)[0] == Name(j)[0];
  }

  // ---------- The vault ----------

  datatype Vault = Vault(counts: map<Kind, nat>, byValue: map<(Kind, string), string>, values: map<string, string>)

  const EMPTY := Vault(map[], map[], map[])

  function CountOf(v: Vault, k: Kind): nat {
    if k in v.counts then v.counts[k] else 0
  }

  function Numbered(l: Letters, v: Vault, kind: Kind, value: string): (Vault, string) {
    var identity := (kind, Normalised(l, kind, value));
    if identity in v.byValue then (v, v.byValue[identity])
    else
      var n := CountOf(v, kind) + 1;
      var p := Placeholder(kind, n);
      (Vault(v.counts[kind := n], v.byValue[identity := p], v.values[p := Trimmed(l, value)]), p)
  }

  // Numbers run from one, no two details share a placeholder, and each stands for a spelling of its own detail.
  ghost predicate IsSound(l: Letters, v: Vault) {
    && (forall id :: id in v.byValue ==> IsOwn(l, v, id))
    && (forall k, n :: 1 <= n <= CountOf(v, k) ==> Placeholder(k, n) in v.values)
    && (forall p :: p in v.values ==> exists id :: id in v.byValue && v.byValue[id] == p)
    && (forall a, b :: a in v.byValue && b in v.byValue && v.byValue[a] == v.byValue[b] ==> a == b)
  }

  ghost predicate IsOwn(l: Letters, v: Vault, id: (Kind, string))
    requires id in v.byValue
  {
    var p := v.byValue[id];
    && (exists n :: 1 <= n <= CountOf(v, id.0) && p == Placeholder(id.0, n))
    && p in v.values && Normalised(l, id.0, v.values[p]) == id.1
  }

  lemma EmptyIsSound(l: Letters)
    ensures IsSound(l, EMPTY)
  {
  }

  lemma NumberedIsNew(l: Letters, v: Vault, kind: Kind)
    requires IsSound(l, v)
    ensures Placeholder(kind, CountOf(v, kind) + 1) !in v.values
  {
    var p := Placeholder(kind, CountOf(v, kind) + 1);
    if p in v.values {
      var id :| id in v.byValue && v.byValue[id] == p;
      assert IsOwn(l, v, id);
      var n :| 1 <= n <= CountOf(v, id.0) && p == Placeholder(id.0, n);
      PlaceholdersAreDistinct(kind, CountOf(v, kind) + 1, id.0, n);
    }
  }

  lemma NewNumberIsOwn(l: Letters, v: Vault, kind: Kind, value: string)
    requires IsLetters(l) && IsSound(l, v) && (kind, Normalised(l, kind, value)) !in v.byValue
    ensures var w := Numbered(l, v, kind, value).0; forall id :: id in w.byValue ==> IsOwn(l, w, id)
  {
    var (w, p) := Numbered(l, v, kind, value);
    NumberedIsNew(l, v, kind);
    TrimmedIsTheSame(l, kind, value);
    forall id | id in w.byValue ensures IsOwn(l, w, id) {
      if id in v.byValue {
        assert IsOwn(l, v, id);
      }
    }
  }

  lemma NewNumberIsAlone(l: Letters, v: Vault, kind: Kind, value: string)
    requires IsSound(l, v) && (kind, Normalised(l, kind, value)) !in v.byValue
    ensures var w := Numbered(l, v, kind, value).0;
            && (forall q :: q in w.values ==> exists id :: id in w.byValue && w.byValue[id] == q)
            && (forall a, b :: a in w.byValue && b in w.byValue && w.byValue[a] == w.byValue[b] ==> a == b)
  {
    var (w, p) := Numbered(l, v, kind, value);
    var identity := (kind, Normalised(l, kind, value));
    NumberedIsNew(l, v, kind);
    assert w.byValue[identity] == p;
    forall q | q in w.values ensures exists id :: id in w.byValue && w.byValue[id] == q {
      if q != p {
        var id :| id in v.byValue && v.byValue[id] == q;
        assert w.byValue[id] == q;
      }
    }
    forall a, b | a in w.byValue && b in w.byValue && w.byValue[a] == w.byValue[b] ensures a == b {
      assert a in v.byValue ==> IsOwn(l, v, a);
      assert b in v.byValue ==> IsOwn(l, v, b);
    }
  }

  lemma NumbersRunFromOne(l: Letters, v: Vault, kind: Kind, value: string)
    requires IsSound(l, v)
    ensures var w := Numbered(l, v, kind, value).0;
            forall k, n :: 1 <= n <= CountOf(w, k) ==> Placeholder(k, n) in w.values
  {
  }

  lemma NumberingKeepsSound(l: Letters, v: Vault, kind: Kind, value: string)
    requires IsLetters(l) && IsSound(l, v)
    ensures IsSound(l, Numbered(l, v, kind, value).0)
  {
    if (kind, Normalised(l, kind, value)) !in v.byValue {
      NewNumberIsOwn(l, v, kind, value);
      NewNumberIsAlone(l, v, kind, value);
      NumbersRunFromOne(l, v, kind, value);
    }
  }

  ghost predicate Extends(w: Vault, v: Vault) {
    && (forall q :: q in v.values ==> q in w.values && w.values[q] == v.values[q])
    && (forall id :: id in v.byValue ==> id in w.byValue && w.byValue[id] == v.byValue[id])
  }

  // What is numbered stays as it is, and what is now numbered stands for the value given.
  lemma NumberingOnlyAdds(l: Letters, v: Vault, kind: Kind, value: string)
    requires IsLetters(l) && IsSound(l, v)
    ensures var (w, p) := Numbered(l, v, kind, value);
            && Extends(w, v)
            && p in w.values && Normalised(l, kind, w.values[p]) == Normalised(l, kind, value)
            && (kind, Normalised(l, kind, value)) in w.byValue
            && w.byValue[(kind, Normalised(l, kind, value))] == p
  {
    var identity := (kind, Normalised(l, kind, value));
    if identity in v.byValue {
      assert IsOwn(l, v, identity);
    } else {
      NumberedIsNew(l, v, kind);
      TrimmedIsTheSame(l, kind, value);
      NewNumberOnlyAdds(l, v, kind, value);
    }
  }

  lemma NewNumberOnlyAdds(l: Letters, v: Vault, kind: Kind, value: string)
    requires (kind, Normalised(l, kind, value)) !in v.byValue
    requires Placeholder(kind, CountOf(v, kind) + 1) !in v.values
    ensures var (w, p) := Numbered(l, v, kind, value);
            && Extends(w, v) && p in w.values && w.values[p] == Trimmed(l, value)
            && w.byValue == v.byValue[(kind, Normalised(l, kind, value)) := p]
  {
  }

  // Two values get one placeholder exactly when they are of one kind and one detail of it.
  lemma OnePlaceholderPerDetail(l: Letters, v: Vault, kind: Kind, value: string, other: Kind, text: string)
    requires IsLetters(l) && IsSound(l, v)
    ensures var (w, p) := Numbered(l, v, kind, value);
            Numbered(l, w, other, text).1 == p <==>
            kind == other && SameDetail(l, kind, value, text)
  {
    SameDetailExactly(l, kind, value, text);
    var (w, p) := Numbered(l, v, kind, value);
    NumberingKeepsSound(l, v, kind, value);
    NumberingOnlyAdds(l, v, kind, value);
    NumberingKeepsSound(l, w, other, text);
    NumberingOnlyAdds(l, w, other, text);
    assert Numbered(l, w, other, text).0.byValue[(kind, Normalised(l, kind, value))] == p;
  }

  class DetailVault {
    const letters: Letters
    var counts: map<Kind, nat>
    var byValue: map<(Kind, string), string>
    var values: map<string, string>

    function View(): Vault
      reads this
    {
      Vault(counts, byValue, values)
    }

    constructor (l: Letters)
      ensures letters == l && View() == EMPTY && IsSound(l, View())
    {
      letters, counts, byValue, values := l, map[], map[], map[];
      new;
      EmptyIsSound(l);
    }

    method PlaceholderFor(kind: Kind, value: string) returns (p: string)
      modifies this
      ensures (View(), p) == Numbered(letters, old(View()), kind, value)
    {
      var identity := (kind, Normalised(letters, kind, value));
      if identity in byValue {
        return byValue[identity];
      }
      counts := counts[kind := CountOf(View(), kind) + 1];
      p := Placeholder(kind, counts[kind]);
      byValue := byValue[identity := p];
      values := values[p := Trimmed(letters, value)];
    }

    // A copy that shares nothing: numbering in it leaves this vault as it was.
    method Fork() returns (copied: DetailVault)
      ensures fresh(copied) && copied.letters == letters && copied.View() == View()
    {
      copied := new DetailVault(letters);
      copied.counts, copied.byValue, copied.values := counts, byValue, values;
    }

    method Take(scratch: DetailVault)
      modifies this
      ensures View() == old(scratch.View())
    {
      counts, byValue, values := scratch.counts, scratch.byValue, scratch.values;
    }
  }
}
