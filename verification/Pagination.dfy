/**
 The inbox list: whole conversations, newest first, paged by a cursor. A page is placed by each thread's newest
 visible email and carries every visible email of its threads. What "visible" means (scope, snooze, waiting send) is
 one flag of the row at the moment the page is read.
 */
module Pagination {
  import opened Common

  type Uuid = nat

  // How an id is written as text, and read back. Reading may accept several spellings of one id.
  datatype Spelling = Spelling(spell: Uuid -> string, read: string -> Option<Uuid>)

  ghost predicate IsSpelling(sp: Spelling) {
    forall u: Uuid :: sp.read(sp.spell(u)) == Some(u)
  }

  datatype Email = Email(id: Uuid, createdAt: Time, thread: Option<string>, isVisible: bool)

  datatype Cursor = Cursor(createdAt: Time, id: Uuid)

  type Table = set<Email>

  predicate IsTable(t: Table) {
    forall a, b | a in t && b in t && a.id == b.id :: a == b
  }

  // ---------- Thread keys ----------

  function ThreadKey(sp: Spelling, e: Email): string {
    if e.thread.Some? then e.thread.value else sp.spell(e.id)
  }

  function MessageIds(sp: Spelling, keys: seq<string>): seq<Uuid> {
    if keys == [] then []
    else
      var id := sp.read(keys[0]);
      (if id.Some? && sp.spell(id.value) == keys[0] then [id.value] else []) + MessageIds(sp, keys[1..])
  }

  method CollectMessageIds(sp: Spelling, keys: seq<string>) returns (ids: seq<Uuid>)
    ensures ids == MessageIds(sp, keys)
  {
    ids := [];
    var rest := keys;
    while rest != []
      invariant ids + MessageIds(sp, rest) == MessageIds(sp, keys)
      decreases |rest|
    {
      var parsed := sp.read(rest[0]);
      if parsed.Some? && sp.spell(parsed.value) == rest[0] {
        ids := ids + [parsed.value];
      }
      rest := rest[1..];
    }
  }

  lemma {:induction false} MessageIdsAreTheSpelledKeys(sp: Spelling, keys: seq<string>, id: Uuid)
    requires IsSpelling(sp)
    ensures id in MessageIds(sp, keys) <==> sp.spell(id) in keys
  {
    if keys != [] {
      MessageIdsAreTheSpelledKeys(sp, keys[1..], id);
      assert keys == [keys[0]] + keys[1..];
      assert sp.read(sp.spell(id)) == Some(id);
    }
  }

  // The condition an index can serve.
  predicate InThreads(sp: Spelling, e: Email, keys: seq<string>) {
    (e.thread.Some? && e.thread.value in keys) || (e.thread.None? && e.id in MessageIds(sp, keys))
  }

  lemma InThreadsExactly(sp: Spelling, e: Email, keys: seq<string>)
    requires IsSpelling(sp)
    ensures InThreads(sp, e, keys) <==> ThreadKey(sp, e) in keys
  {
    MessageIdsAreTheSpelledKeys(sp, keys, e.id);
  }

  // ---------- Newest first ----------

  function At(e: Email): Cursor {
    Cursor(e.createdAt, e.id)
  }

  predicate Before(a: Cursor, b: Cursor) {
    a.createdAt < b.createdAt || (a.createdAt == b.createdAt && a.id < b.id)
  }

  ghost predicate IsListing(q: seq<Email>, s: set<Email>) {
    && (forall i, j :: 0 <= i < j < |q| ==> Before(At(q[j]), At(q[i])))
    && (forall e :: e in q <==> e in s)
  }

  predicate IsNewest(e: Email, s: set<Email>) {
    e in s && forall f | f in s && f != e :: Before(At(f), At(e))
  }

  lemma {:induction false} NewestExists(s: set<Email>)
    requires IsTable(s) && s != {}
    ensures exists e :: IsNewest(e, s)
  {
    var any :| any in s;
    var rest := s - {any};
    if rest != {} {
      NewestExists(rest);
      var best :| IsNewest(best, rest);
      assert IsNewest(if Before(At(best), At(any)) then any else best, s);
    } else {
      assert s == {any};
      assert IsNewest(any, s);
    }
  }

  ghost function NewestFirst(s: set<Email>): (q: seq<Email>)
    requires IsTable(s)
    ensures IsListing(q, s)
  {
    if s == {} then []
    else
      NewestExists(s);
      var e :| IsNewest(e, s);
      [e] + NewestFirst(s - {e})
  }

  lemma {:induction false} OneListing(p: seq<Email>, q: seq<Email>, s: set<Email>)
    requires IsListing(p, s) && IsListing(q, s)
    ensures p == q
  {
    assert p != [] ==> p[0] in p && p[0] in q;
    assert q != [] ==> q[0] in q && q[0] in p;
    if p != [] {
      DropNewest(p, s);
      DropNewest(q, s);
      OneListing(p[1..], q[1..], s - {p[0]});
    }
  }

  lemma DropNewest(q: seq<Email>, s: set<Email>)
    requires IsListing(q, s) && q != []
    ensures IsListing(q[1..], s - {q[0]})
  {
    assert forall e :: e in q <==> e == q[0] || e in q[1..];
  }

  // What comes after the n-th email of a listing is what is older than it.
  lemma CutListing(q: seq<Email>, s: set<Email>, n: nat)
    requires IsListing(q, s) && 0 < n <= |q|
    ensures IsListing(q[n..], set e | e in s && Before(At(e), At(q[n - 1])))
  {
    forall e ensures e in q[n..] <==> e in s && Before(At(e), At(q[n - 1])) {
      if e in s && Before(At(e), At(q[n - 1])) {
        var i :| 0 <= i < |q| && q[i] == e;
        assert q[n..][i - n] == e;
      }
    }
  }

  // ---------- One page ----------

  datatype Page = Page(heads: seq<Email>, emails: seq<Email>, next: Option<Cursor>)

  // Each thread's newest visible email.
  ghost predicate IsHead(sp: Spelling, t: Table, e: Email) {
    && e in t && e.isVisible
    && forall f | f in t && f.isVisible && ThreadKey(sp, f) == ThreadKey(sp, e) :: f == e || Before(At(f), At(e))
  }

  predicate IsPast(after: Option<Cursor>, e: Email) {
    after.None? || Before(At(e), after.value)
  }

  ghost function Heads(sp: Spelling, t: Table, after: Option<Cursor>): set<Email> {
    set e | e in t && IsHead(sp, t, e) && IsPast(after, e)
  }

  function Take<T>(s: seq<T>, n: nat): seq<T> {
    if |s| <= n then s else s[..n]
  }

  function Keys(sp: Spelling, heads: seq<Email>): (keys: seq<string>)
    ensures |keys| == |heads| && forall i :: 0 <= i < |heads| ==> keys[i] == ThreadKey(sp, heads[i])
  {
    if heads == [] then [] else [ThreadKey(sp, heads[0])] + Keys(sp, heads[1..])
  }

  ghost function Shown(sp: Spelling, t: Table, keys: seq<string>): set<Email> {
    set e | e in t && e.isVisible && InThreads(sp, e, keys)
  }

  // One thread more than the page holds says whether there is another page.
  ghost function FoundAfter(sp: Spelling, t: Table, limit: nat, after: Option<Cursor>): seq<Email>
    requires IsTable(t)
  {
    Take(NewestFirst(Heads(sp, t, after)), limit + 1)
  }

  ghost function HeadsOn(sp: Spelling, t: Table, limit: nat, after: Option<Cursor>): seq<Email>
    requires IsTable(t)
  {
    Take(FoundAfter(sp, t, limit, after), limit)
  }

  ghost function NextAfter(sp: Spelling, t: Table, limit: nat, after: Option<Cursor>): Option<Cursor>
    requires IsTable(t)
  {
    var page := HeadsOn(sp, t, limit, after);
    if |FoundAfter(sp, t, limit, after)| > limit > 0 then Some(At(page[|page| - 1])) else None
  }

  ghost function PageOf(sp: Spelling, t: Table, limit: nat, after: Option<Cursor>): Page
    requires IsTable(t)
  {
    var page := HeadsOn(sp, t, limit, after);
    Page(page, if page == [] then [] else NewestFirst(Shown(sp, t, Keys(sp, page))), NextAfter(sp, t, limit, after))
  }

  // A page holds, newest first, exactly the visible emails of its own threads: no thread is split.
  lemma PageIsWhole(sp: Spelling, t: Table, limit: nat, after: Option<Cursor>, e: Email)
    requires IsSpelling(sp) && IsTable(t)
    ensures var page := PageOf(sp, t, limit, after);
            && (e in page.emails <==> e in t && e.isVisible && ThreadKey(sp, e) in Keys(sp, page.heads))
            && IsListing(page.emails, Shown(sp, t, Keys(sp, page.heads)))
            && (e in page.heads ==> e in page.emails && IsHead(sp, t, e))
  {
    var page := PageOf(sp, t, limit, after);
    InThreadsExactly(sp, e, Keys(sp, page.heads));
    if page.heads == [] {
      forall f ensures f !in Shown(sp, t, []) {
        InThreadsExactly(sp, f, []);
      }
      assert Keys(sp, page.heads) == [];
    }
    if e in page.heads {
      var i :| 0 <= i < |page.heads| && page.heads[i] == e;
      assert Keys(sp, page.heads)[i] == ThreadKey(sp, e);
      assert e in NewestFirst(Heads(sp, t, after));
    }
  }

  // Later created, or as late with the higher id.
  predicate IsLater(a: Email, b: Email) {
    a.createdAt >= b.createdAt && (a.createdAt == b.createdAt ==> a.id > b.id)
  }

  /**
   A page by the times themselves: its emails and its threads newest first, a thread placed by the newest of its
   visible emails, every thread older than the cursor; at most `limit` threads, and the next cursor, if there is more,
   at the last of them.
   */
  lemma PageByTime(sp: Spelling, t: Table, limit: nat, after: Option<Cursor>)
    requires IsTable(t) && limit > 0
    ensures var page := PageOf(sp, t, limit, after);
            && (forall i, j :: 0 <= i < j < |page.emails| ==> IsLater(page.emails[i], page.emails[j]))
            && (forall i, j :: 0 <= i < j < |page.heads| ==> IsLater(page.heads[i], page.heads[j]))
            && |page.heads| <= limit
            && (page.next.Some? ==>
                  && |page.heads| == limit
                  && page.next.value.createdAt == page.heads[limit - 1].createdAt
                  && page.next.value.id == page.heads[limit - 1].id)
  {
    PageHeads(sp, t, limit, after);
    var page, all := PageOf(sp, t, limit, after), NewestFirst(Heads(sp, t, after));
    ListingByTime(all, Heads(sp, t, after));
    if page.heads != [] {
      ListingByTime(page.emails, Shown(sp, t, Keys(sp, page.heads)));
    }
  }

  lemma ListingByTime(q: seq<Email>, s: set<Email>)
    requires IsListing(q, s)
    ensures forall i, j :: 0 <= i < j < |q| ==> IsLater(q[i], q[j])
  {
  }

  lemma HeadByTime(sp: Spelling, t: Table, limit: nat, after: Option<Cursor>, h: Email, f: Email)
    requires IsTable(t) && limit > 0 && h in PageOf(sp, t, limit, after).heads
    requires f in t && f.isVisible && ThreadKey(sp, f) == ThreadKey(sp, h)
    ensures h.isVisible && h in t && (f == h || IsLater(h, f))
    ensures after.Some? ==> h.createdAt < after.value.createdAt
                            || (h.createdAt == after.value.createdAt && h.id < after.value.id)
  {
    PageHeads(sp, t, limit, after);
    assert h in NewestFirst(Heads(sp, t, after));
  }

  // Each thread with a visible email has one head.
  lemma {:induction false} EveryThreadHasItsHead(sp: Spelling, t: Table, e: Email) returns (head: Email)
    requires IsTable(t) && e in t && e.isVisible
    ensures IsHead(sp, t, head) && ThreadKey(sp, head) == ThreadKey(sp, e)
    ensures forall f :: IsHead(sp, t, f) && ThreadKey(sp, f) == ThreadKey(sp, e) ==> f == head
  {
    var members := set f | f in t && f.isVisible && ThreadKey(sp, f) == ThreadKey(sp, e);
    assert e in members;
    NewestExists(members);
    head :| IsNewest(head, members);
  }

  // ---------- Reading to the end of a table that does not change ----------

  lemma HeadsUnder(sp: Spelling, t: Table, after: Option<Cursor>, last: Email)
    requires last in Heads(sp, t, after)
    ensures Heads(sp, t, Some(At(last))) == set e | e in Heads(sp, t, after) && Before(At(e), At(last))
    ensures Heads(sp, t, Some(At(last))) < Heads(sp, t, after)
  {
    assert last !in Heads(sp, t, Some(At(last)));
  }

  lemma TakeTwice<T>(s: seq<T>, n: nat)
    ensures Take(Take(s, n + 1), n) == Take(s, n)
    ensures |Take(s, n + 1)| > n <==> |s| > n
    ensures |s| > n > 0 ==> |Take(s, n)| == n && Take(s, n)[n - 1] == s[n - 1]
  {
    if |s| > n {
      assert s[..n + 1][..n] == s[..n];
    }
  }

  lemma PageHeads(sp: Spelling, t: Table, limit: nat, after: Option<Cursor>)
    requires IsTable(t) && limit > 0
    ensures var all := NewestFirst(Heads(sp, t, after));
            && HeadsOn(sp, t, limit, after) == Take(all, limit)
            && NextAfter(sp, t, limit, after) == if |all| > limit then Some(At(all[limit - 1])) else None
  {
    TakeTwice(NewestFirst(Heads(sp, t, after)), limit);
  }

  // The page holds the heads down to the next cursor, and the next page starts right under it.
  lemma PageSplits(sp: Spelling, t: Table, limit: nat, after: Option<Cursor>)
    requires IsTable(t) && limit > 0
    ensures var next := NextAfter(sp, t, limit, after);
            && (next.None? ==> HeadsOn(sp, t, limit, after) == NewestFirst(Heads(sp, t, after)))
            && (next.Some? ==>
                  && HeadsOn(sp, t, limit, after) + NewestFirst(Heads(sp, t, next)) == NewestFirst(Heads(sp, t, after))
                  && Heads(sp, t, next) < Heads(sp, t, after))
  {
    PageHeads(sp, t, limit, after);
    if NextAfter(sp, t, limit, after).Some? {
      RestIsUnder(sp, t, after, limit);
    }
  }

  lemma RestIsUnder(sp: Spelling, t: Table, after: Option<Cursor>, n: nat)
    requires IsTable(t) && 0 < n <= |NewestFirst(Heads(sp, t, after))|
    ensures var all := NewestFirst(Heads(sp, t, after));
            var under := Heads(sp, t, Some(At(all[n - 1])));
            all[..n] + NewestFirst(under) == all && under < Heads(sp, t, after)
  {
    var all := NewestFirst(Heads(sp, t, after));
    var under := Heads(sp, t, Some(At(all[n - 1])));
    assert all[n - 1] in all;
    HeadsUnder(sp, t, after, all[n - 1]);
    CutListing(all, Heads(sp, t, after), n);
    OneListing(all[n..], NewestFirst(under), under);
    assert all == all[..n] + all[n..];
  }

  // ---------- Following nextCursor ----------

  // One request: the table as it then is, and the cursor it carries.
  datatype Visit = Visit(table: Table, after: Option<Cursor>)

  ghost function Read(sp: Spelling, limit: nat, v: Visit): Page
    requires IsTable(v.table)
  {
    PageOf(sp, v.table, limit, v.after)
  }

  ghost function NextRead(sp: Spelling, limit: nat, v: Visit): Option<Cursor>
    requires IsTable(v.table)
  {
    NextAfter(sp, v.table, limit, v.after)
  }

  ghost predicate Follows(sp: Spelling, limit: nat, v: Visit, w: Visit)
    requires IsTable(v.table)
  {
    w.after.Some? && w.after == NextRead(sp, limit, v)
  }

  predicate AreTables(visits: seq<Visit>) {
    forall i :: 0 <= i < |visits| ==> IsTable(visits[i].table)
  }

  ghost predicate AreLinked(sp: Spelling, limit: nat, visits: seq<Visit>)
    requires AreTables(visits)
  {
    forall i, j | 0 <= i && j == i + 1 < |visits| :: Follows(sp, limit, visits[i], visits[j])
  }

  // Every page's nextCursor is the next request's cursor, until a page has none. The table may change in between.
  ghost predicate IsWalk(sp: Spelling, limit: nat, visits: seq<Visit>) {
    && visits != [] && AreTables(visits) && AreLinked(sp, limit, visits)
    && NextRead(sp, limit, visits[|visits| - 1]).None?
  }

  ghost function AllHeads(sp: Spelling, limit: nat, visits: seq<Visit>): seq<Email>
    requires AreTables(visits)
  {
    if visits == [] then []
    else HeadsOn(sp, visits[0].table, limit, visits[0].after) + AllHeads(sp, limit, visits[1..])
  }

  lemma LongerLinks(sp: Spelling, limit: nat, first: Visit, rest: seq<Visit>)
    requires IsTable(first.table) && AreTables(rest) && AreLinked(sp, limit, rest)
    requires rest != [] && Follows(sp, limit, first, rest[0])
    ensures AreTables([first] + rest) && AreLinked(sp, limit, [first] + rest)
  {
    var visits := [first] + rest;
    assert AreTables(visits);
    forall i, j | 0 <= i && j == i + 1 < |visits| ensures Follows(sp, limit, visits[i], visits[j]) {
      if i > 0 {
        var p := i - 1;
        assert Follows(sp, limit, rest[p], rest[i]);
      }
    }
  }

  lemma LongerWalk(sp: Spelling, limit: nat, first: Visit, rest: seq<Visit>)
    requires IsTable(first.table) && IsWalk(sp, limit, rest) && Follows(sp, limit, first, rest[0])
    ensures IsWalk(sp, limit, [first] + rest)
  {
    LongerLinks(sp, limit, first, rest);
    assert ([first] + rest)[|rest|] == rest[|rest| - 1];
  }

  lemma NextIsUnder(sp: Spelling, t: Table, limit: nat, after: Option<Cursor>)
    requires IsTable(t) && limit > 0
    ensures var next := NextAfter(sp, t, limit, after); next.Some? ==> Heads(sp, t, next) < Heads(sp, t, after)
  {
    PageSplits(sp, t, limit, after);
  }

  // On a table that does not change, the walk comes to an end.
  ghost function Walk(sp: Spelling, t: Table, limit: nat, after: Option<Cursor>): (visits: seq<Visit>)
    requires IsTable(t) && limit > 0
    ensures visits != [] && visits[0] == Visit(t, after)
    ensures forall i :: 0 <= i < |visits| ==> visits[i].table == t
    decreases Heads(sp, t, after)
  {
    NextIsUnder(sp, t, limit, after);
    var next := NextAfter(sp, t, limit, after);
    [Visit(t, after)] + if next.None? then [] else Walk(sp, t, limit, next)
  }

  lemma {:induction false} WalkIsWalk(sp: Spelling, t: Table, limit: nat, after: Option<Cursor>)
    requires IsTable(t) && limit > 0
    ensures IsWalk(sp, limit, Walk(sp, t, limit, after))
    decreases Heads(sp, t, after)
  {
    PageSplits(sp, t, limit, after);
    var next := NextAfter(sp, t, limit, after);
    if next.Some? {
      WalkIsWalk(sp, t, limit, next);
      LongerWalk(sp, limit, Visit(t, after), Walk(sp, t, limit, next));
    }
  }

  // It lists every thread with a visible email, each once, newest first.
  lemma {:induction false} WalkListsEveryThread(sp: Spelling, t: Table, limit: nat, after: Option<Cursor>)
    requires IsTable(t) && limit > 0
    ensures AllHeads(sp, limit, Walk(sp, t, limit, after)) == NewestFirst(Heads(sp, t, after))
    decreases Heads(sp, t, after)
  {
    PageSplits(sp, t, limit, after);
    var next := NextAfter(sp, t, limit, after);
    if next.Some? {
      WalkListsEveryThread(sp, t, limit, next);
      assert Walk(sp, t, limit, after)[1..] == Walk(sp, t, limit, next);
    } else {
      assert Walk(sp, t, limit, after)[1..] == [];
    }
  }

  // ---------- Whatever happens between the requests ----------

  ghost predicate Lists(sp: Spelling, limit: nat, v: Visit, h: Email)
    requires IsTable(v.table)
  {
    h in HeadsOn(sp, v.table, limit, v.after)
  }

  // Of a listing's members the first n are those that do not come behind the n-th.
  lemma FirstOrBehind(all: seq<Email>, s: set<Email>, n: nat, h: Email)
    requires IsListing(all, s) && 0 < n <= |all| && h in s
    ensures h in all[..n] <==> !Before(At(h), At(all[n - 1]))
  {
    CutListing(all, s, n);
    var i :| 0 <= i < |all| && all[i] == h;
    assert i < n ==> all[..n][i] == h;
    assert i >= n ==> all[n..][i - n] == h;
  }

  lemma NothingBeforeItsRange(sp: Spelling, t: Table, after: Option<Cursor>, last: Email, h: Email)
    requires last in Heads(sp, t, after) && Before(At(h), At(last))
    ensures IsPast(after, h)
  {
  }

  // A page takes exactly the heads from its own cursor down to the next one.
  lemma PageTakesItsRange(sp: Spelling, limit: nat, v: Visit, h: Email)
    requires IsTable(v.table) && limit > 0 && IsHead(sp, v.table, h)
    ensures var next := NextRead(sp, limit, v);
            && (Lists(sp, limit, v, h) <==> IsPast(v.after, h) && !(next.Some? && IsPast(next, h)))
            && (next.Some? && IsPast(next, h) ==> IsPast(v.after, h))
  {
    var heads := Heads(sp, v.table, v.after);
    var all := NewestFirst(heads);
    PageHeads(sp, v.table, limit, v.after);
    assert h in heads <==> IsPast(v.after, h);
    if |all| > limit {
      var last := all[limit - 1];
      assert last in heads && forall e :: e in all[..limit] ==> e in all;
      if Before(At(h), At(last)) {
        NothingBeforeItsRange(sp, v.table, v.after, last, h);
      }
      if h in heads {
        FirstOrBehind(all, heads, limit, h);
      }
    }
  }

  lemma NextTakesOver(sp: Spelling, limit: nat, v: Visit, w: Visit, h: Email)
    requires limit > 0 && IsTable(v.table) && IsHead(sp, v.table, h) && Follows(sp, limit, v, w)
    ensures Lists(sp, limit, v, h) <==> IsPast(v.after, h) && !IsPast(w.after, h)
    ensures IsPast(w.after, h) ==> IsPast(v.after, h)
  {
    PageTakesItsRange(sp, limit, v, h);
  }

  lemma {:induction false} ListedFrom(sp: Spelling, limit: nat, visits: seq<Visit>, h: Email, k: nat) returns (i: nat)
    requires limit > 0 && IsWalk(sp, limit, visits) && k < |visits| && IsPast(visits[k].after, h)
    requires forall i :: 0 <= i < |visits| ==> IsHead(sp, visits[i].table, h)
    ensures k <= i < |visits| && Lists(sp, limit, visits[i], h)
    decreases |visits| - k
  {
    if k + 1 == |visits| {
      PageTakesItsRange(sp, limit, visits[k], h);
      return k;
    }
    NextTakesOver(sp, limit, visits[k], visits[k + 1], h);
    if IsPast(visits[k + 1].after, h) {
      i := ListedFrom(sp, limit, visits, h, k + 1);
    } else {
      i := k;
    }
  }

  lemma PastOneBefore(sp: Spelling, limit: nat, visits: seq<Visit>, h: Email, j: nat)
    requires limit > 0 && IsWalk(sp, limit, visits) && j + 1 < |visits| && IsHead(sp, visits[j].table, h)
    ensures IsPast(visits[j + 1].after, h) ==> IsPast(visits[j].after, h)
  {
    assert Follows(sp, limit, visits[j], visits[j + 1]);
    NextTakesOver(sp, limit, visits[j], visits[j + 1], h);
  }

  ghost predicate PastGoesDown(visits: seq<Visit>, h: Email) {
    forall i, j | 0 <= i && j == i + 1 < |visits| :: IsPast(visits[j].after, h) ==> IsPast(visits[i].after, h)
  }

  lemma {:induction false} PastOnlyBefore(visits: seq<Visit>, h: Email, j: nat, k: nat)
    requires PastGoesDown(visits, h) && j <= k < |visits| && IsPast(visits[k].after, h)
    ensures IsPast(visits[j].after, h)
    decreases k - j
  {
    if j < k {
      PastOnlyBefore(visits, h, j + 1, k);
    }
  }

  lemma WalkGoesDown(sp: Spelling, limit: nat, visits: seq<Visit>, h: Email)
    requires limit > 0 && IsWalk(sp, limit, visits)
    requires forall i :: 0 <= i < |visits| ==> IsHead(sp, visits[i].table, h)
    ensures PastGoesDown(visits, h)
  {
    forall i, j | 0 <= i && j == i + 1 < |visits| ensures IsPast(visits[j].after, h) ==> IsPast(visits[i].after, h) {
      PastOneBefore(sp, limit, visits, h, i);
    }
  }

  /**
   A thread whose newest visible email stays what it is while the pages are read is placed on exactly one of them,
   whatever else arrives, is snoozed or is deleted between the requests: on page i, and on any page j only if it is i.
   */
  lemma SteadyThreadOnOnePage(sp: Spelling, limit: nat, visits: seq<Visit>, h: Email, j: nat) returns (i: nat)
    requires limit > 0 && IsWalk(sp, limit, visits) && visits[0].after.None? && j < |visits|
    requires forall i :: 0 <= i < |visits| ==> IsHead(sp, visits[i].table, h)
    ensures i < |visits| && Lists(sp, limit, visits[i], h)
    ensures Lists(sp, limit, visits[j], h) ==> j == i
  {
    i := ListedFrom(sp, limit, visits, h, 0);
    NotTwice(sp, limit, visits, h, i, j);
    NotTwice(sp, limit, visits, h, j, i);
  }

  lemma NotTwice(sp: Spelling, limit: nat, visits: seq<Visit>, h: Email, j: nat, k: nat)
    requires limit > 0 && IsWalk(sp, limit, visits) && j < |visits| && k < |visits|
    requires forall i :: 0 <= i < |visits| ==> IsHead(sp, visits[i].table, h)
    ensures j < k && Lists(sp, limit, visits[j], h) ==> !Lists(sp, limit, visits[k], h)
  {
    if j < k {
      NextTakesOver(sp, limit, visits[j], visits[j + 1], h);
      PageTakesItsRange(sp, limit, visits[k], h);
      if IsPast(visits[k].after, h) {
        WalkGoesDown(sp, limit, visits, h);
        PastOnlyBefore(visits, h, j + 1, k);
      }
    }
  }

  // On an unchanged table every visible email is on exactly one page.
  lemma EveryEmailOnOnePage(sp: Spelling, limit: nat, t: Table, e: Email, j: nat) returns (i: nat)
    requires IsSpelling(sp) && IsTable(t) && limit > 0 && e in t && e.isVisible
    requires j < |Walk(sp, t, limit, None)|
    ensures var visits := Walk(sp, t, limit, None);
            && i < |visits|
            && e in Read(sp, limit, visits[i]).emails
            && (e in Read(sp, limit, visits[j]).emails ==> j == i)
  {
    var visits := Walk(sp, t, limit, None);
    WalkIsWalk(sp, t, limit, None);
    var head := EveryThreadHasItsHead(sp, t, e);
    i := SteadyThreadOnOnePage(sp, limit, visits, head, j);
    EmailGoesWithItsHead(sp, limit, visits[i], e, head);
    EmailGoesWithItsHead(sp, limit, visits[j], e, head);
  }

  lemma EmailGoesWithItsHead(sp: Spelling, limit: nat, v: Visit, e: Email, head: Email)
    requires IsSpelling(sp) && IsTable(v.table) && limit > 0 && e in v.table && e.isVisible
    requires IsHead(sp, v.table, head) && ThreadKey(sp, head) == ThreadKey(sp, e)
    ensures e in Read(sp, limit, v).emails <==> Lists(sp, limit, v, head)
  {
    var heads := HeadsOn(sp, v.table, limit, v.after);
    PageIsWhole(sp, v.table, limit, v.after, e);
    forall h | h in heads ensures IsHead(sp, v.table, h) {
      PageIsWhole(sp, v.table, limit, v.after, h);
    }
    KeyAmongHeads(sp, v.table, heads, head);
  }

  lemma OneHead(sp: Spelling, t: Table, a: Email, b: Email)
    requires IsHead(sp, t, a) && IsHead(sp, t, b) && ThreadKey(sp, a) == ThreadKey(sp, b)
    ensures a == b
  {
  }

  lemma KeyAmongHeads(sp: Spelling, t: Table, heads: seq<Email>, head: Email)
    requires IsHead(sp, t, head) && forall h :: h in heads ==> IsHead(sp, t, h)
    ensures ThreadKey(sp, head) in Keys(sp, heads) <==> head in heads
  {
    if ThreadKey(sp, head) in Keys(sp, heads) {
      var i :| 0 <= i < |heads| && ThreadKey(sp, heads[i]) == ThreadKey(sp, head);
      assert heads[i] in heads;
      OneHead(sp, t, heads[i], head);
    }
    if head in heads {
      var i :| 0 <= i < |heads| && heads[i] == head;
      assert Keys(sp, heads)[i] == ThreadKey(sp, head);
    }
  }
}
