/**
 The columns a send is claimed, settled and recorded through, for the three kinds of send that share the
 reconciler: an approved reply (messages), a holding reply (holding_reply) and a follow-up (sent_message).
 One row function per UPDATE statement, and the in-place rows whose methods run them.
 */
module SendRows {
  import opened Common

  // The dashboard's bound: a younger claim without a message ID is taken for a send under way.
  const SEND_IN_FLIGHT: Time := 2 * MINUTE
  // The reconciler's bound: it asks Gmail only about claims older than this.
  const UNCONFIRMED_AFTER: Time := 10 * MINUTE
  // By how much Gmail's clock may run behind the database's.
  const CLOCK_SLACK: Time := 2 * MINUTE

  datatype Kind = Reply | HoldingReply | FollowUp

  // claimedAt is sent_at (followed_up_at on a follow-up), messageId is sent_message_id (a follow-up has none).
  datatype Row = Row(claimedAt: Option<Time>, unknownAt: Option<Time>, messageId: Option<string>)

  const UNCLAIMED := Row(None, None, None)

  // Only a reply is marked unknown by the claim itself.
  function Claimed(k: Kind, row: Row, now: Time): (r: Row)
    requires row.claimedAt.None?
  {
    row.(claimedAt := Some(now), unknownAt := if k.Reply? then Some(now) else row.unknownAt)
  }

  // Unconditional on the row: nothing says which claim is being undone.
  function Released(k: Kind, row: Row): Row {
    row.(claimedAt := None, unknownAt := if k.Reply? then None else row.unknownAt)
  }

  function Recorded(k: Kind, row: Row, id: Option<string>): Row {
    match k
    case Reply => row.(messageId := id, unknownAt := None)
    case HoldingReply => row.(messageId := id)
    case FollowUp => row
  }

  function MarkedUnknown(row: Row, now: Time): Row {
    row.(unknownAt := Some(now))
  }

  // The reconciler's SELECT. The thread is required too: a row without one is simply never picked.
  predicate Unconfirmed(k: Kind, row: Row, now: Time) {
    && row.unknownAt.Some?
    && row.unknownAt.value < now - UNCONFIRMED_AFTER
    && (if k.FollowUp? then row.claimedAt.Some? else row.messageId.None?)
  }

  // The reconciler's guarded UPDATE with Gmail's answer.
  function Settled(k: Kind, row: Row, found: Option<string>): Row {
    if row.unknownAt.None? || (!k.FollowUp? && row.messageId.Some?) then row
    else if found.None? then row.(claimedAt := None, unknownAt := None)
    else row.(messageId := if k.FollowUp? then row.messageId else found, unknownAt := None)
  }

  // Answering "sent" would be a guess: some request holds the claim, and Gmail has told it nothing so far.
  predicate IsMidSend(row: Row, now: Time) {
    row.claimedAt.Some? && row.claimedAt.value > now - SEND_IN_FLIGHT && row.messageId.None?
  }

  // What the request hears from Gmail. An accepted send can still come back without its Message-ID.
  datatype Answer = Accepted(id: Option<string>) | Refused | Lost

  datatype Outcome = InProgress | AlreadySent | SentNow | SentNotRecorded | Failed | Unknown

  // Where a request that got as far as Gmail leaves the row it claimed.
  function Finished(k: Kind, row: Row, answer: Answer, now: Time, isSaved: bool): Row {
    match answer
    case Accepted(id) => if isSaved then Recorded(k, row, id) else row
    case Refused => Released(k, row)
    case Lost => MarkedUnknown(row, now)
  }

  class SendRow {
    const kind: Kind
    var claimedAt: Option<Time>
    var unknownAt: Option<Time>
    var messageId: Option<string>

    function View(): Row
      reads this
    {
      Row(claimedAt, unknownAt, messageId)
    }

    constructor (kind: Kind)
      ensures this.kind == kind && View() == UNCLAIMED
    {
      this.kind := kind;
      claimedAt, unknownAt, messageId := None, None, None;
    }

    method Claim(now: Time) returns (isClaimed: bool)
      modifies this
      ensures isClaimed == old(View()).claimedAt.None?
      ensures View() == if isClaimed then Claimed(kind, old(View()), now) else old(View())
      ensures isClaimed ==> claimedAt == Some(now) && unknownAt == if kind.Reply? then Some(now) else old(unknownAt)
      ensures messageId == old(messageId)
    {
      isClaimed := claimedAt.None?;
      if isClaimed {
        claimedAt := Some(now);
        if kind.Reply? {
          unknownAt := Some(now);
        }
      }
    }

    method Release()
      modifies this
      ensures View() == Released(kind, old(View()))
      ensures claimedAt.None? && unknownAt == if kind.Reply? then None else old(unknownAt)
      ensures messageId == old(messageId)
    {
      claimedAt := None;
      if kind.Reply? {
        unknownAt := None;
      }
    }

    // The copy's Message-ID is kept where the row has a column for it, and a reply's mark goes; the claim stays.
    method Record(id: Option<string>)
      modifies this
      ensures View() == Recorded(kind, old(View()), id)
      ensures claimedAt == old(claimedAt) && messageId == if kind.FollowUp? then old(messageId) else id
      ensures unknownAt == if kind.Reply? then None else old(unknownAt)
    {
      if !kind.FollowUp? {
        messageId := id;
      }
      if kind.Reply? {
        unknownAt := None;
      }
    }

    method MarkUnknown(now: Time)
      modifies this
      ensures View() == MarkedUnknown(old(View()), now)
      ensures unknownAt == Some(now) && claimedAt == old(claimedAt) && messageId == old(messageId)
    {
      unknownAt := Some(now);
    }

    // A row still open to it: with a copy found the claim stays and the copy's ID with it, with none the row is free
    // to be claimed again. Any other row is as it was.
    method Settle(found: Option<string>)
      modifies this
      ensures View() == Settled(kind, old(View()), found)
      ensures old(unknownAt.Some? && (kind.FollowUp? || messageId.None?)) ==>
                && unknownAt.None? && claimedAt == (if found.Some? then old(claimedAt) else None)
                && messageId == if kind.FollowUp? then old(messageId) else found
      ensures !old(unknownAt.Some? && (kind.FollowUp? || messageId.None?)) ==> View() == old(View())
    {
      if unknownAt.Some? && (kind.FollowUp? || messageId.None?) {
        unknownAt := None;
        if found.None? {
          claimedAt := None;
        } else if !kind.FollowUp? {
          messageId := found;
        }
      }
    }
  }

  /**
   One approve click, uninterrupted: refused while another request is sending, answered as sent when it was,
   and otherwise claimed before Gmail is called and then recorded, released or marked. The row reads as unsent
   afterwards exactly when nothing was claimed before and Gmail refused; and once it holds a Message-ID every later
   click is answered as sent.
   */
  method ApproveAndSend(row: SendRow, now: Time, answer: Answer, later: Time, isSaved: bool) returns (r: Outcome)
    requires row.kind == Reply
    modifies row
    ensures r.InProgress? <==>
      && old(row.claimedAt).Some? && old(row.messageId).None? && now - old(row.claimedAt).value < 2 * MINUTE
    ensures r.AlreadySent? <==> old(row.claimedAt).Some? && !r.InProgress?
    ensures old(row.claimedAt).Some? && old(row.messageId).Some? ==> r.AlreadySent?
    ensures r.InProgress? || r.AlreadySent? ==> row.View() == old(row.View())
    ensures old(row.View()).claimedAt.None? ==>
      row.View() == Finished(Reply, Claimed(Reply, old(row.View()), now), answer, later, isSaved)
    ensures r.Failed? <==> row.claimedAt.None?
    ensures old(row.View()).claimedAt.None? ==>
      && (r.Failed? <==> answer.Refused?) && (r.Unknown? <==> answer.Lost?)
      && (r.SentNotRecorded? <==> answer.Accepted? && !isSaved) && (r.SentNow? <==> answer.Accepted? && isSaved)
    ensures r.SentNow? ==> row.claimedAt == Some(now) && row.unknownAt.None? && row.messageId == answer.id
    ensures r.SentNotRecorded? ==>
      row.claimedAt == Some(now) && row.unknownAt == Some(now) && row.messageId == old(row.messageId)
    ensures r.Unknown? ==>
      row.claimedAt == Some(now) && row.unknownAt == Some(later) && row.messageId == old(row.messageId)
    ensures r.Failed? ==> row.claimedAt.None? && row.unknownAt.None? && row.messageId == old(row.messageId)
  {
    if IsMidSend(row.View(), now) {
      return InProgress;
    }
    if row.claimedAt.Some? {
      return AlreadySent;
    }
    var isClaimed := row.Claim(now);
    match answer
    case Lost =>
      row.MarkUnknown(later);
      return Unknown;
    case Refused =>
      row.Release();
      return Failed;
    case Accepted(id) =>
      if !isSaved {
        return SentNotRecorded;
      }
      row.Record(id);
      return SentNow;
  }

  // Gmail could not be asked about a row (skipped until the next pass), or it answered.
  datatype Asked = Unreachable | Answered(found: Option<string>)

  function Reconciled(k: Kind, row: Row, asked: Asked): Row {
    if asked.Unreachable? then row else Settled(k, row, asked.found)
  }

  function CountAnswered(asked: seq<Asked>): nat {
    if asked == [] then 0 else CountAnswered(asked[..|asked| - 1]) + (if asked[|asked| - 1].Answered? then 1 else 0)
  }

  /**
   The settling loop over the rows one pass read: each row answered for is settled by its own answer, one whose
   question failed is left as it was, and the count is of the rows settled.
   */
  method ReconcileSends(rows: seq<SendRow>, asked: seq<Asked>) returns (settled: nat)
    requires |asked| == |rows|
    requires forall i, j :: 0 <= i < j < |rows| ==> rows[i] != rows[j]
    modifies rows
    ensures forall i :: 0 <= i < |rows| ==> rows[i].View() == Reconciled(rows[i].kind, old(rows[i].View()), asked[i])
    ensures settled == CountAnswered(asked) == |set i | 0 <= i < |asked| && asked[i].Answered?|
  {
    settled := 0;
    for n := 0 to |rows|
      invariant forall i :: 0 <= i < n ==> rows[i].View() == Reconciled(rows[i].kind, old(rows[i].View()), asked[i])
      invariant forall i :: n <= i < |rows| ==> rows[i].View() == old(rows[i].View())
      invariant settled == CountAnswered(asked[..n])
    {
      assert asked[..n + 1][..n] == asked[..n];
      if asked[n].Answered? {
        rows[n].Settle(asked[n].found);
        settled := settled + 1;
      }
    }
    assert asked[..|rows|] == asked;
    CountsAnswered(asked);
  }

  lemma {:induction false} CountsAnswered(asked: seq<Asked>)
    ensures CountAnswered(asked) == |set i | 0 <= i < |asked| && asked[i].Answered?|
  {
    var all := set i | 0 <= i < |asked| && asked[i].Answered?;
    if asked == [] {
      assert all == {};
    } else {
      var n := |asked| - 1;
      var before := set i | 0 <= i < n && asked[..n][i].Answered?;
      CountsAnswered(asked[..n]);
      assert all == before + if asked[n].Answered? then {n} else {};
    }
  }

  // ---------- When the reconciler asks ----------

  /**
   A send of unknown outcome is asked about from ten minutes after it was marked on, and not before: a reply whose
   request was never heard from again from its claim on, the other kinds from the request's own mark on.
   */
  lemma AskedTenMinutesOn(k: Kind, row: Row, claim: Time, mark: Time, now: Time)
    requires row.claimedAt.None? && row.unknownAt.None? && row.messageId.None?
    ensures var claimed := Claimed(k, row, claim);
            && (Unconfirmed(k, claimed, now) <==> k.Reply? && claim + 10 * MINUTE < now)
            && (Unconfirmed(k, MarkedUnknown(claimed, mark), now) <==> mark + 10 * MINUTE < now)
            && !Unconfirmed(k, Released(k, claimed), now)
  {
  }

  // How the request leaves the columns, for each kind: a refusal frees the row, a lost answer marks it, and an
  // accepted send that is recorded keeps its Message-ID where there is a column for it.
  lemma FinishedOnColumns(k: Kind, row: Row, answer: Answer, now: Time, isSaved: bool)
    ensures var r := Finished(k, row, answer, now, isSaved);
            && r.claimedAt == (if answer == Refused then None else row.claimedAt)
            && r.messageId == (if answer.Accepted? && isSaved && k != FollowUp then answer.id else row.messageId)
            && r.unknownAt == (if answer == Lost then Some(now)
                               else if k == Reply && (answer == Refused || isSaved) then None
                               else row.unknownAt)
  {
  }

  // What Gmail's answer settles is not asked about again, and neither is what was recorded with an ID.
  lemma SettledIsNotAskedAgain(k: Kind, row: Row, found: Option<string>, id: string, now: Time)
    requires Unconfirmed(k, row, now)
    ensures !Unconfirmed(k, Settled(k, row, found), now)
    ensures !k.FollowUp? ==> !Unconfirmed(k, Recorded(k, row, Some(id)), now)
  {
  }
}
