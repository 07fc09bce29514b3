/**
 The audit trail's hash chain: what a row hashes, how the trigger appends, and how the whole table is verified.
 A table is its chained rows in chain_seq order, which a unique index makes one order. digest stands for SHA-256
 in hex: nothing is assumed of it but that it prints 64 characters and no separator.
 */
module AuditChain {
  import opened Collections
  import opened Common
  import opened Decimal
  import opened Weaving

  const SEPARATOR: char := '\U{1F}'

  predicate IsClean(text: string) {
    SEPARATOR !in text
  }

  // What a digest prints, and what a uuid, a boolean or a timestamp does.
  type Hash = h: string | |h| == 64 && IsClean(h) witness Zeros(64)
  type Plain = s: string | s != [] && IsClean(s) witness "0"

  type Digest = string -> Hash

  const GENESIS: Hash := Zeros(64)
  // The end of BIGINT.
  const SEQ_END: nat := 0x8000_0000_0000_0000

  datatype Fields = Fields(action: Option<string>, detail: Option<string>, success: Option<bool>, user: Option<Plain>,
                           createdAt: Plain)

  // The two hashes are nullable columns; only the trigger fills them.
  datatype Row = Row(prevHash: Option<string>, chainSeq: nat, fields: Fields, currentHash: Option<string>)

  type Table = seq<Row>

  function Zeros(n: nat): (z: string)
    ensures |z| == n && forall k :: 0 <= k < n ==> z[k] == '0'
  {
    if n == 0 then "" else "0" + Zeros(n - 1)
  }

  // ---------- The formula ----------

  function Coalesced(text: Option<string>): string {
    if text.Some? then text.value else ""
  }

  function BoolText(value: Option<bool>): string {
    if value.None? then "" else if value.value then "true" else "false"
  }

  function FieldParts(f: Fields): seq<string> {
    [Coalesced(f.action), Coalesced(f.detail), BoolText(f.success), Coalesced(f.user), f.createdAt]
  }

  // concat_ws leaves a NULL out, its separator with it.
  function Parts(prevHash: Option<string>, chainSeq: nat, f: Fields): seq<string> {
    (if prevHash.Some? then [prevHash.value] else []) + ([Digits(chainSeq)] + FieldParts(f))
  }

  function Hashed(prevHash: Option<string>, chainSeq: nat, f: Fields): string {
    Joined(Parts(prevHash, chainSeq, f), [SEPARATOR])
  }

  function HashedText(row: Row): string {
    Hashed(row.prevHash, row.chainSeq, row.fields)
  }

  /**
   What a row hashes, column by column: the hash before it, unless that is NULL, its number, its action, its detail,
   "true", "false" or nothing, its user and its time, a separator between each two; NULL is the empty text.
   */
  lemma HashedSpelled(p: string, n: nat, f: Fields)
    ensures var action := if f.action.Some? then f.action.value else "";
            var detail := if f.detail.Some? then f.detail.value else "";
            var success := match f.success case None => "" case Some(true) => "true" case Some(false) => "false";
            var user := if f.user.Some? then f.user.value else "";
            var fields :=
              action + "\U{1F}" + (detail + "\U{1F}" + (success + "\U{1F}" + (user + "\U{1F}" + f.createdAt)));
            && Hashed(None, n, f) == Digits(n) + "\U{1F}" + fields
            && Hashed(Some(p), n, f) == p + "\U{1F}" + (Digits(n) + "\U{1F}" + fields)
  {
    JoinedStep(Digits(n), FieldParts(f));
    JoinedStep(p, [Digits(n)] + FieldParts(f));
    FieldsSpelled(f);
    assert Parts(None, n, f) == [Digits(n)] + FieldParts(f);
  }

  lemma FieldsSpelled(f: Fields)
    ensures Joined(FieldParts(f), "\U{1F}") ==
      Coalesced(f.action) + "\U{1F}" + (Coalesced(f.detail) + "\U{1F}" + (BoolText(f.success) + "\U{1F}"
                                         + (Coalesced(f.user) + "\U{1F}" + f.createdAt)))
  {
    JoinedStep(Coalesced(f.action), [Coalesced(f.detail), BoolText(f.success), Coalesced(f.user), f.createdAt]);
    JoinedStep(Coalesced(f.detail), [BoolText(f.success), Coalesced(f.user), f.createdAt]);
    JoinedStep(BoolText(f.success), [Coalesced(f.user), f.createdAt]);
    JoinedStep(Coalesced(f.user), [f.createdAt]);
  }

  lemma JoinedStep(first: string, rest: seq<string>)
    requires rest != []
    ensures Joined([first] + rest, [SEPARATOR]) == first + [SEPARATOR] + Joined(rest, [SEPARATOR])
  {
    assert ([first] + rest)[1..] == rest;
  }

  // ---------- Verifying and appending ----------

  function HashBefore(t: Table, i: nat): string
    requires i <= |t|
  {
    if i == 0 || t[i - 1].currentHash.None? then GENESIS else t[i - 1].currentHash.value
  }

  function SeqBefore(t: Table, i: nat): nat
    requires i <= |t|
  {
    if i == 0 then 0 else t[i - 1].chainSeq
  }

  // A comparison with NULL is NULL, and what is not false does not count against the table.
  predicate IsUnbroken(digest: Digest, t: Table, i: nat)
    requires i < |t|
  {
    && (t[i].currentHash.Some? ==> t[i].currentHash.value == digest(HashedText(t[i])))
    && (t[i].prevHash.Some? ==> t[i].prevHash.value == HashBefore(t, i))
    && t[i].chainSeq == SeqBefore(t, i) + 1
  }

  predicate IsIntact(digest: Digest, t: Table) {
    forall i :: 0 <= i < |t| ==> IsUnbroken(digest, t, i)
  }

  function Head(t: Table): Option<string> {
    if t == [] then None else t[|t| - 1].currentHash
  }

  // As the trigger leaves a row: no hash is NULL.
  predicate IsWhole(t: Table) {
    forall i :: 0 <= i < |t| ==> t[i].prevHash.Some? && t[i].currentHash.Some?
  }

  // The trigger, under the chain's lock.
  function Appended(digest: Digest, t: Table, f: Fields): Table {
    var prevHash, chainSeq := Some(HashBefore(t, |t|)), SeqBefore(t, |t|) + 1;
    t + [Row(prevHash, chainSeq, f, Some(digest(Hashed(prevHash, chainSeq, f))))]
  }

  lemma AppendingKeepsIntact(digest: Digest, t: Table, f: Fields)
    requires IsIntact(digest, t)
    ensures IsIntact(digest, Appended(digest, t, f)) && (IsWhole(t) ==> IsWhole(Appended(digest, t, f)))
    ensures var u, n := Appended(digest, t, f), |t|;
            && |u| == n + 1 && u[..n] == t && u[n].fields == f && u[n].chainSeq == n + 1
            && u[n].prevHash == Some(if n == 0 || t[n - 1].currentHash.None? then Zeros(64)
                                     else t[n - 1].currentHash.value)
            && u[n].currentHash == Some(digest(HashedText(u[n])))
  {
    var u := Appended(digest, t, f);
    if t != [] {
      SeqsCountUp(digest, t, |t| - 1);
    }
    forall i | 0 <= i < |u| ensures IsUnbroken(digest, u, i) {
      assert i < |t| ==> IsUnbroken(digest, t, i);
    }
  }

  lemma {:induction false} SeqsCountUp(digest: Digest, t: Table, i: nat)
    requires IsIntact(digest, t) && i < |t|
    ensures t[i].chainSeq == i + 1
  {
    assert IsUnbroken(digest, t, i);
    if i > 0 {
      SeqsCountUp(digest, t, i - 1);
    }
  }

  // A row without its two hashes breaks nothing, whatever else it says.
  lemma NullHashesNeverBreak(digest: Digest, t: Table)
    requires forall i :: 0 <= i < |t| ==> t[i].prevHash.None? && t[i].currentHash.None?
    ensures IsIntact(digest, t) <==> forall i :: 0 <= i < |t| ==> t[i].chainSeq == i + 1
  {
    if IsIntact(digest, t) {
      forall i | 0 <= i < |t| ensures t[i].chainSeq == i + 1 {
        SeqsCountUp(digest, t, i);
      }
    }
  }

  // ---------- When the formula tells two rows apart ----------

  // NULL and the empty text read the same.
  function Read(f: Fields): Fields {
    f.(action := Some(Coalesced(f.action)), detail := Some(Coalesced(f.detail)))
  }

  // No separator in the two columns that could hold one.
  predicate HasClean(f: Fields) {
    IsClean(Coalesced(f.action)) && IsClean(Coalesced(f.detail))
  }

  function Separators(text: string): nat {
    multiset(text)[SEPARATOR]
  }

  lemma {:induction false} SeparatorsOfJoined(parts: seq<string>)
    requires parts != []
    ensures Separators(Joined(parts, [SEPARATOR])) >= |parts| - 1
    ensures Separators(Joined(parts, [SEPARATOR])) == |parts| - 1 <==> forall p :: p in parts ==> IsClean(p)
  {
    assert parts == [parts[0]] + parts[1..];
    assert forall p :: p in parts <==> p == parts[0] || p in parts[1..];
    assert IsClean(parts[0]) <==> Separators(parts[0]) == 0;
    if |parts| > 1 {
      var rest := Joined(parts[1..], [SEPARATOR]);
      SeparatorsOfJoined(parts[1..]);
      assert Separators(parts[0] + [SEPARATOR] + rest) == Separators(parts[0]) + 1 + Separators(rest);
    }
  }

  // Texts that start alike agree on what comes before the first separator, when neither part holds one.
  lemma SameFirstPart(p: string, r: string, q: string, s: string)
    requires IsClean(p) && IsClean(q) && p + [SEPARATOR] + r == q + [SEPARATOR] + s
    ensures p == q && r == s
  {
    var x, y := p + [SEPARATOR] + r, q + [SEPARATOR] + s;
    assert forall k :: 0 <= k < |p| ==> p[k] != SEPARATOR;
    assert forall k :: 0 <= k < |q| ==> q[k] != SEPARATOR;
    assert x[|p|] == SEPARATOR && y[|q|] == SEPARATOR;
    assert x[..|p|] == p && y[..|q|] == q && x[|p| + 1..] == r && y[|q| + 1..] == s;
  }

  // Parts without a separator are told apart from any other parts of the same number, clean or not.
  lemma {:induction false} JoinedIsInjective(a: seq<string>, b: seq<string>)
    requires |a| == |b| && forall p :: p in a ==> IsClean(p)
    ensures Joined(a, [SEPARATOR]) == Joined(b, [SEPARATOR]) <==> a == b
  {
    if a != [] && Joined(a, [SEPARATOR]) == Joined(b, [SEPARATOR]) {
      SeparatorsOfJoined(a);
      SeparatorsOfJoined(b);
      if |a| > 1 {
        SameFirstPart(a[0], Joined(a[1..], [SEPARATOR]), b[0], Joined(b[1..], [SEPARATOR]));
        JoinedIsInjective(a[1..], b[1..]);
      }
      assert a == [a[0]] + a[1..] && b == [b[0]] + b[1..];
    }
  }

  function Pow10(k: nat): nat {
    if k == 0 then 1 else 10 * Pow10(k - 1)
  }

  lemma {:induction false} DigitsAreFew(n: nat, k: nat)
    requires 0 < k && n < Pow10(k)
    ensures |Digits(n)| <= k
  {
    if n >= 10 {
      DigitsAreFew(n / 10, k - 1);
    }
  }

  lemma SeqsAreShort(n: nat)
    requires n < SEQ_END
    ensures |Digits(n)| <= 19 && IsClean(Digits(n))
  {
    assert Pow10(5) == 100_000;
    assert Pow10(10) == 100_000 * Pow10(5);
    assert Pow10(15) == 100_000 * Pow10(10);
    assert Pow10(19) == 10_000 * Pow10(15);
    DigitsAreFew(n, 19);
  }

  lemma PartsOf(p: string, n: nat, f: Fields)
    ensures Parts(Some(p), n, f) == [p, Digits(n), Coalesced(f.action), Coalesced(f.detail), BoolText(f.success),
                                     Coalesced(f.user), f.createdAt]
  {
  }

  lemma SameParts(p: string, m: nat, f: Fields, q: string, n: nat, g: Fields)
    ensures Parts(Some(p), m, f) == Parts(Some(q), n, g) <==> p == q && m == n && Read(f) == Read(g)
  {
    var a, b := Parts(Some(p), m, f), Parts(Some(q), n, g);
    PartsOf(p, m, f);
    PartsOf(q, n, g);
    if a == b {
      assert a[0] == b[0] && a[1] == b[1] && a[2] == b[2] && a[3] == b[3] && a[4] == b[4] && a[5] == b[5]
          && a[6] == b[6];
      DigitsAreInjective(m, n);
    }
  }

  // A link left out cannot be made up for: the number in front is too short to pass for a hash.
  lemma LinkIsNeeded(p: Hash, m: nat, f: Fields, n: nat, g: Fields)
    requires n < SEQ_END
    ensures Hashed(Some(p), m, f) != Hashed(None, n, g)
  {
    var d := Digits(n);
    SeqsAreShort(n);
    PartsOf(p, m, f);
    var a, b := Parts(Some(p), m, f)[1..], FieldParts(g);
    assert Parts(None, n, g) == [d] + b;
    assert Hashed(Some(p), m, f) == p + [SEPARATOR] + Joined(a, [SEPARATOR]);
    assert Hashed(None, n, g) == d + [SEPARATOR] + Joined(b, [SEPARATOR]) by {
      JoinedStep(d, b);
    }
    if Hashed(Some(p), m, f) == Hashed(None, n, g) {
      SameFirstPart(p, Joined(a, [SEPARATOR]), d, Joined(b, [SEPARATOR]));
    }
  }

  // A row without a separator against any other: one hashed text exactly when they are one row, up to NULL.
  lemma HashedTellsRowsApart(p: Hash, m: nat, f: Fields, q: Option<string>, n: nat, g: Fields)
    requires HasClean(f) && n < SEQ_END
    ensures Hashed(Some(p), m, f) == Hashed(q, n, g) <==> q == Some(p) && m == n && Read(f) == Read(g)
  {
    if q.None? {
      LinkIsNeeded(p, m, f, n, g);
    } else {
      PartsOf(p, m, f);
      assert IsClean(BoolText(f.success)) && IsClean(Digits(m));
      JoinedIsInjective(Parts(Some(p), m, f), Parts(q, n, g));
      SameParts(p, m, f, q.value, n, g);
    }
  }

  // ---------- A recorded head fixes the whole table ----------

  predicate Collide(digest: Digest, x: string, y: string) {
    x != y && digest(x) == digest(y)
  }

  // Two texts, one hashed in each table, that the digest does not tell apart.
  predicate HaveCollision(digest: Digest, t: Table, u: Table) {
    exists i, j {:trigger Collide(digest, HashedText(t[i]), HashedText(u[j]))} ::
      0 <= i < |t| && 0 <= j < |u| && Collide(digest, HashedText(t[i]), HashedText(u[j]))
  }

  predicate HitsGenesis(digest: Digest, t: Table) {
    exists i :: 0 <= i < |t| && digest(HashedText(t[i])) == GENESIS
  }

  predicate IsCleanTable(t: Table) {
    forall i :: 0 <= i < |t| ==> HasClean(t[i].fields)
  }

  // Column by column, with NULL read as the empty text.
  function ReadRow(row: Row): Row {
    row.(fields := Read(row.fields))
  }

  predicate SameTable(t: Table, u: Table) {
    |t| == |u| && forall i :: 0 <= i < |t| ==> ReadRow(t[i]) == ReadRow(u[i])
  }

  // What is asked of the table whose head was noted: it verifies, the trigger filled its hashes, and no row has the
  // 64 zeros for its digest.
  predicate IsRecorded(digest: Digest, t: Table) {
    IsIntact(digest, t) && IsWhole(t) && !HitsGenesis(digest, t)
  }

  lemma LinkIsHash(digest: Digest, t: Table, i: nat)
    requires IsIntact(digest, t) && IsWhole(t) && i < |t|
    ensures t[i].prevHash.Some? && |t[i].prevHash.value| == 64 && IsClean(t[i].prevHash.value)
    ensures t[i].currentHash == Some(digest(HashedText(t[i])))
  {
    assert IsUnbroken(digest, t, i);
    assert i > 0 ==> IsUnbroken(digest, t, i - 1);
  }

  lemma SameHashSameRow(digest: Digest, t: Table, i: nat, u: Table, j: nat)
    requires IsRecorded(digest, t) && IsIntact(digest, u) && i < |t| && j < |u| < SEQ_END
    requires HasClean(t[i].fields) && t[i].currentHash == u[j].currentHash && !HaveCollision(digest, t, u)
    ensures ReadRow(t[i]) == ReadRow(u[j]) && i == j
  {
    LinkIsHash(digest, t, i);
    assert IsUnbroken(digest, u, j);
    SeqsCountUp(digest, t, i);
    SeqsCountUp(digest, u, j);
    assert !Collide(digest, HashedText(t[i]), HashedText(u[j]));
    HashedTellsRowsApart(t[i].prevHash.value, t[i].chainSeq, t[i].fields, u[j].prevHash, u[j].chainSeq, u[j].fields);
  }

  lemma SameRowBefore(digest: Digest, t: Table, u: Table, i: nat)
    requires IsRecorded(digest, t) && IsCleanTable(t) && IsIntact(digest, u) && 0 < i < |t| && i < |u| < SEQ_END
    requires !HaveCollision(digest, t, u) && ReadRow(t[i]) == ReadRow(u[i])
    ensures ReadRow(t[i - 1]) == ReadRow(u[i - 1])
  {
    LinkIsHash(digest, t, i - 1);
    assert IsUnbroken(digest, t, i) && IsUnbroken(digest, u, i);
    assert t[i - 1].currentHash.value != GENESIS;
    SameHashSameRow(digest, t, i - 1, u, i - 1);
  }

  lemma {:induction false} AgreeBackwards(digest: Digest, t: Table, u: Table, i: nat)
    requires IsRecorded(digest, t) && IsCleanTable(t) && IsIntact(digest, u) && i < |t| && i < |u| < SEQ_END
    requires !HaveCollision(digest, t, u) && ReadRow(t[i]) == ReadRow(u[i])
    ensures forall k :: 0 <= k <= i ==> ReadRow(t[k]) == ReadRow(u[k])
  {
    if i > 0 {
      SameRowBefore(digest, t, u, i);
      AgreeBackwards(digest, t, u, i - 1);
    }
  }

  /**
   Any table that verifies and shows the head of a recorded clean one is that table, row for row, up to a NULL that
   reads as an empty text; the only way out is two texts hashed in them that the digest does not tell apart. So an
   edit, a gap, a reordering, a truncation or a dropped hash shows against a head noted elsewhere.
   */
  lemma SameHeadSameTable(digest: Digest, t: Table, u: Table)
    requires IsRecorded(digest, t) && IsCleanTable(t) && t != []
    requires IsIntact(digest, u) && |u| < SEQ_END
    ensures SameTable(t, u) ==> Head(t) == Head(u)
    ensures Head(t) == Head(u) ==> SameTable(t, u) || HaveCollision(digest, t, u)
  {
    var last := |t| - 1;
    if SameTable(t, u) {
      assert ReadRow(t[last]) == ReadRow(u[last]);
    }
    if Head(t) == Head(u) && !HaveCollision(digest, t, u) {
      LinkIsHash(digest, t, last);
      SameHashSameRow(digest, t, last, u, |u| - 1);
      AgreeBackwards(digest, t, u, last);
    }
  }

  // ---------- What an edit in place changes ----------

  function Edited(t: Table, i: nat, f: Fields): Table
    requires i < |t|
  {
    t[i := t[i].(fields := f)]
  }

  // A rewritten row shows exactly when it kept its hash and its hashed text has another digest.
  lemma EditShowsExactly(digest: Digest, t: Table, i: nat, f: Fields)
    requires IsIntact(digest, t) && i < |t|
    ensures IsIntact(digest, Edited(t, i, f))
            <==> t[i].currentHash.None? || digest(HashedText(Edited(t, i, f)[i])) == digest(HashedText(t[i]))
  {
    var u := Edited(t, i, f);
    assert IsUnbroken(digest, t, i);
    assert IsIntact(digest, u) ==> IsUnbroken(digest, u, i);
    forall j | 0 <= j < |u| && (j != i || IsUnbroken(digest, u, i)) ensures IsUnbroken(digest, u, j) {
      assert IsUnbroken(digest, t, j);
    }
  }

  // Without a collision an edit of a clean row goes unseen exactly when it only swaps NULL and the empty text.
  lemma CleanRowEditShowsExactly(digest: Digest, t: Table, i: nat, f: Fields)
    requires IsIntact(digest, t) && IsWhole(t) && i < |t| < SEQ_END && HasClean(t[i].fields)
    requires !Collide(digest, HashedText(t[i]), HashedText(Edited(t, i, f)[i]))
    ensures IsIntact(digest, Edited(t, i, f)) <==> Read(f) == Read(t[i].fields)
  {
    EditShowsExactly(digest, t, i, f);
    LinkIsHash(digest, t, i);
    SeqsCountUp(digest, t, i);
    var row := t[i];
    HashedTellsRowsApart(row.prevHash.value, row.chainSeq, row.fields, row.prevHash, row.chainSeq, f);
  }

  // Another reading of the row that hashes the same text.
  ghost predicate HasTwin(p: Option<string>, n: nat, f: Fields) {
    exists g: Fields :: Read(g) != Read(f) && Hashed(p, n, g) == Hashed(p, n, f)
  }

  // Text around a separator can be moved to the column beside it, so exactly the clean rows have one reading.
  lemma HasTwinExactly(p: Hash, n: nat, f: Fields)
    requires n < SEQ_END
    ensures HasTwin(Some(p), n, f) <==> !HasClean(f)
  {
    if HasClean(f) {
      forall g: Fields ensures Hashed(Some(p), n, g) == Hashed(Some(p), n, f) ==> Read(g) == Read(f) {
        HashedTellsRowsApart(p, n, f, Some(p), n, g);
      }
    } else {
      var g := Moved(f);
      MovedAcross(p, n, f);
      assert Read(g) != Read(f) && Hashed(Some(p), n, g) == Hashed(Some(p), n, f);
    }
  }

  // What follows the first separator of the action goes to the detail; or what precedes the detail's to the action.
  function Moved(f: Fields): (g: Fields)
    requires !HasClean(f)
    ensures Read(g) != Read(f)
  {
    var action, detail := Coalesced(f.action), Coalesced(f.detail);
    if !IsClean(action) then
      var k := FirstSeparator(action);
      f.(action := Some(action[..k]), detail := Some(action[k + 1..] + [SEPARATOR] + detail))
    else
      var k := FirstSeparator(detail);
      f.(action := Some(action + [SEPARATOR] + detail[..k]), detail := Some(detail[k + 1..]))
  }

  function FirstSeparator(text: string): (k: nat)
    requires !IsClean(text)
    ensures k < |text| && text[k] == SEPARATOR
  {
    if text[0] == SEPARATOR then 0 else 1 + FirstSeparator(text[1..])
  }

  lemma MovedAcross(p: Hash, n: nat, f: Fields)
    requires !HasClean(f)
    ensures Hashed(Some(p), n, Moved(f)) == Hashed(Some(p), n, f)
  {
    var action, detail, g := Coalesced(f.action), Coalesced(f.detail), Moved(f);
    HashedAhead(p, n, f);
    HashedAhead(p, n, g);
    var rest := [BoolText(f.success), Coalesced(f.user), f.createdAt];
    if !IsClean(action) {
      var k := FirstSeparator(action);
      assert action == action[..k] + [SEPARATOR] + action[k + 1..];
      MovedInside(action[..k], action[k + 1..], detail, rest);
    } else {
      var k := FirstSeparator(detail);
      assert detail == detail[..k] + [SEPARATOR] + detail[k + 1..];
      MovedInside(action, detail[..k], detail[k + 1..], rest);
    }
    assert FieldParts(f) == [action, detail] + rest;
    assert FieldParts(g) == [Coalesced(g.action), Coalesced(g.detail)] + rest;
  }

  lemma HashedAhead(p: Hash, n: nat, f: Fields)
    ensures Hashed(Some(p), n, f)
            == p + [SEPARATOR] + (Digits(n) + [SEPARATOR] + Joined(FieldParts(f), [SEPARATOR]))
  {
    JoinedStep(Digits(n), FieldParts(f));
    JoinedStep(p, [Digits(n)] + FieldParts(f));
  }

  lemma MovedInside(x: string, y: string, z: string, rest: seq<string>)
    requires rest != []
    ensures Joined([x + [SEPARATOR] + y, z] + rest, [SEPARATOR])
            == Joined([x, y + [SEPARATOR] + z] + rest, [SEPARATOR])
  {
    JoinedTwice(x + [SEPARATOR] + y, z, rest);
    JoinedTwice(x, y + [SEPARATOR] + z, rest);
    Reassociated(x, y, z, [SEPARATOR], Joined(rest, [SEPARATOR]));
  }

  lemma JoinedTwice(first: string, second: string, rest: seq<string>)
    requires rest != []
    ensures Joined([first, second] + rest, [SEPARATOR])
            == first + [SEPARATOR] + (second + [SEPARATOR] + Joined(rest, [SEPARATOR]))
  {
    JoinedStep(second, rest);
    JoinedStep(first, [second] + rest);
    assert [first, second] + rest == [first] + ([second] + rest);
  }

  lemma Reassociated(x: string, y: string, z: string, s: string, j: string)
    ensures x + s + y + s + (z + s + j) == x + s + (y + s + z + s + j)
  {
    Associates(x + s, y, s);
    Associates(y + s, z, s);
    Associates(y + s, z + s, j);
    Associates(x + s, y + s, z + s + j);
  }

  // ---------- When a head fixes its table ----------

  // Another table that verifies, shows the same head and is not told apart by a collision.
  predicate IsDouble(digest: Digest, t: Table, u: Table) {
    IsIntact(digest, u) && |u| < SEQ_END && Head(u) == Head(t) && !SameTable(t, u) && !HaveCollision(digest, t, u)
  }

  ghost predicate HasDouble(digest: Digest, t: Table) {
    exists u: Table :: IsDouble(digest, t, u)
  }

  /**
   A recorded table whose own texts do not collide is fixed by its head, up to NULL, if and only if no action and no
   detail holds the separator.
   */
  lemma HeadFixesExactly(digest: Digest, t: Table)
    requires IsRecorded(digest, t) && t != [] && |t| < SEQ_END && !HaveCollision(digest, t, t)
    ensures HasDouble(digest, t) <==> !IsCleanTable(t)
  {
    if IsCleanTable(t) {
      forall u: Table ensures !IsDouble(digest, t, u) {
        if IsIntact(digest, u) && |u| < SEQ_END {
          SameHeadSameTable(digest, t, u);
        }
      }
    } else {
      var i :| 0 <= i < |t| && !HasClean(t[i].fields);
      LinkIsHash(digest, t, i);
      MovedAcross(t[i].prevHash.value, t[i].chainSeq, t[i].fields);
      MovedTableIsDouble(digest, t, i);
      assert IsDouble(digest, t, Edited(t, i, Moved(t[i].fields)));
    }
  }

  lemma MovedTableIsDouble(digest: Digest, t: Table, i: nat)
    requires IsIntact(digest, t) && i < |t| < SEQ_END && !HaveCollision(digest, t, t) && !HasClean(t[i].fields)
    requires HashedText(Edited(t, i, Moved(t[i].fields))[i]) == HashedText(t[i])
    ensures IsDouble(digest, t, Edited(t, i, Moved(t[i].fields)))
  {
    var u := Edited(t, i, Moved(t[i].fields));
    EditShowsExactly(digest, t, i, Moved(t[i].fields));
    OtherTable(t, u, i);
    assert forall k :: 0 <= k < |t| ==> HashedText(u[k]) == HashedText(t[k]);
    NoNewCollision(digest, t, u);
  }

  lemma OtherTable(t: Table, u: Table, i: nat)
    requires i < |t| == |u| && Read(t[i].fields) != Read(u[i].fields)
    ensures !SameTable(t, u)
  {
    assert ReadRow(t[i]).fields != ReadRow(u[i]).fields;
  }

  lemma NoNewCollision(digest: Digest, t: Table, u: Table)
    requires |u| == |t| && forall k :: 0 <= k < |t| ==> HashedText(u[k]) == HashedText(t[k])
    requires !HaveCollision(digest, t, t)
    ensures !HaveCollision(digest, t, u)
  {
    forall j, k | 0 <= j < |t| && 0 <= k < |u| ensures !Collide(digest, HashedText(t[j]), HashedText(u[k])) {
      assert !Collide(digest, HashedText(t[j]), HashedText(t[k]));
    }
  }
}
