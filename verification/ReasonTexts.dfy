/**
 Reading a review reason's code and items back from its text, as is done for drafts stored before codes were: exactly
 when that gives back what the text was written from.
 */
module ReasonTexts {
  import opened Common
  import opened Decimal
  import opened Repair
  import opened Scanning
  import opened Weaving

  // ---------- Splitting what was joined ----------

  function Split(s: string, separator: string): (pieces: seq<string>)
    requires separator != []
    ensures pieces != [] && pieces[0] <= s
    decreases |s|
  {
    if separator <= s then [""] + Split(s[|separator|..], separator)
    else if s == [] then [""]
    else
      var rest := Split(s[1..], separator);
      [[s[0]] + rest[0]] + rest[1..]
  }

  predicate IsSeparator(separator: string) {
    |separator| == 2 && separator[0] != separator[1]
  }

  lemma {:induction false} PiecesHoldNone(s: string, separator: string)
    requires IsSeparator(separator)
    ensures forall piece | piece in Split(s, separator) :: !Holds(piece, separator)
    decreases |s|
  {
    var pieces := Split(s, separator);
    if separator <= s {
      PiecesHoldNone(s[2..], separator);
    } else if s != [] {
      var rest := Split(s[1..], separator);
      PiecesHoldNone(s[1..], separator);
      var first := [s[0]] + rest[0];
      assert first[1..] == rest[0] && first <= s;
    }
  }

  // An item without the separator is one piece, at the end of a text or before the separator.
  lemma {:induction false} LastIsOnePiece(item: string, separator: string)
    requires IsSeparator(separator) && !Holds(item, separator)
    ensures Split(item, separator) == [item]
  {
    if item != [] {
      LastIsOnePiece(item[1..], separator);
      assert [item[0]] + item[1..] == item;
    }
  }

  lemma NothingIsOnePiece(more: string, separator: string)
    requires IsSeparator(separator)
    ensures Split("" + separator + more, separator) == [""] + Split(more, separator)
  {
    assert "" + separator + more == separator + more && (separator + more)[2..] == more;
  }

  lemma {:induction false} ItemIsOnePiece(item: string, more: string, separator: string)
    requires IsSeparator(separator) && !Holds(item, separator)
    ensures Split(item + separator + more, separator) == [item] + Split(more, separator)
  {
    if item == [] {
      NothingIsOnePiece(more, separator);
    } else {
      ItemIsOnePiece(item[1..], more, separator);
      NoneAtFront(item, more, separator);
      Recut(item, separator, more);
      LetterJoins(item[0], item[1..] + separator + more, separator);
      assert ([item[1..]] + Split(more, separator))[1..] == Split(more, separator);
    }
  }

  lemma Recut(item: string, separator: string, more: string)
    requires item != []
    ensures item + separator + more == [item[0]] + (item[1..] + separator + more) && [item[0]] + item[1..] == item
  {
  }

  lemma LetterJoins(c: char, rest: string, separator: string)
    requires separator != [] && !(separator <= [c] + rest)
    ensures Split([c] + rest, separator) == [[c] + Split(rest, separator)[0]] + Split(rest, separator)[1..]
  {
    assert ([c] + rest)[1..] == rest;
  }

  lemma NoneAtFront(item: string, more: string, separator: string)
    requires IsSeparator(separator) && item != [] && !Holds(item, separator)
    ensures !(separator <= item + separator + more)
  {
    assert |item| > 1 ==> item[..2] == (item + separator + more)[..2];
  }

  // Split at the separator, joined items come back exactly when none of them holds it.
  lemma {:induction false} SplitUndoesJoin(items: seq<string>, separator: string)
    requires IsSeparator(separator) && items != []
    ensures Split(Joined(items, separator), separator) == items
            <==> forall item | item in items :: !Holds(item, separator)
  {
    PiecesHoldNone(Joined(items, separator), separator);
    if forall item | item in items :: !Holds(item, separator) {
      JoinedSplits(items, separator);
    }
  }

  lemma {:induction false} JoinedSplits(items: seq<string>, separator: string)
    requires IsSeparator(separator) && items != [] && forall item | item in items :: !Holds(item, separator)
    ensures Split(Joined(items, separator), separator) == items
  {
    assert items[0] in items;
    if |items| == 1 {
      LastIsOnePiece(items[0], separator);
    } else {
      JoinedSplits(items[1..], separator);
      ItemIsOnePiece(items[0], Joined(items[1..], separator), separator);
    }
  }

  // ---------- Reading a text ----------

  // Most specific first.
  function CodeOf(text: string): Code {
    if "possible phishing" <= text then PhishingLink
    else if "no policy context" <= text then NotGrounded
    else if "pii: PRESIDIO_UNAVAILABLE" <= text then PiiScanUnavailable
    else if "pii:" <= text then PiiFound
    else if "figures not in source:" <= text then FiguresNotInSource
    else if "critic unavailable" <= text then CriticUnavailable
    else if "grounding check failed" <= text then GroundingFailed
    else if "does not address everything" <= text then Incomplete
    else if "does not address:" <= text then DoesNotAddress
    else if "needed " <= text then RefineRounds
    else if "repair stopped" <= text then RepairStopped
    else if "confidence " <= text then LowConfidence
    else if "no reply drafted" <= text then NoReply
    else if "no draft:" <= text then NoDraft
    else Unknown
  }

  function SeparatorOf(code: Code): Option<string> {
    if code.PiiFound? || code.FiguresNotInSource? then Some(", ")
    else if code.DoesNotAddress? then Some("; ")
    else None
  }

  // What follows the first colon and space.
  function AfterColon(text: string): Option<string> {
    if ": " <= text then Some(text[2..]) else if text == [] then None else AfterColon(text[1..])
  }

  predicate IsFirstAt(text: string, i: int) {
    IsAt(text, ": ", i) && forall j :: 0 <= j < i ==> !IsAt(text, ": ", j)
  }

  lemma {:induction false} AfterColonExactly(text: string, i: int)
    ensures IsFirstAt(text, i) ==> AfterColon(text) == Some(text[i + 2..])
    ensures !Holds(text, ": ") ==> AfterColon(text) == None
  {
    if IsFirstAt(text, i) {
      HoldsAt(text, ": ", i);
    }
    if ": " <= text {
      assert IsAt(text, ": ", 0);
    } else if text != [] {
      if IsFirstAt(text, i) {
        assert i > 0 ==> text[1..][i - 1..i + 1] == text[i..i + 2];
        forall j | 0 <= j < i - 1 ensures !IsAt(text[1..], ": ", j) {
          OneOn(text, j);
        }
        assert text[1..][i - 1 + 2..] == text[i + 2..];
      }
      AfterColonExactly(text[1..], i - 1);
    }
  }

  lemma OneOn(text: string, j: nat)
    requires text != []
    ensures IsAt(text[1..], ": ", j) ==> IsAt(text, ": ", j + 1)
  {
    assert j + 3 <= |text| ==> text[1..][j..j + 2] == text[j + 1..j + 3];
  }

  function ItemsOf(text: string): seq<string> {
    var separator, rest := SeparatorOf(CodeOf(text)), AfterColon(text);
    if separator.Some? && rest.Some? then Split(rest.value, separator.value) else []
  }

  lemma AfterOpening(opening: string, rest: string)
    requires forall i :: 0 <= i < |opening| ==> opening[i] != ':'
    ensures AfterColon(opening + ": " + rest) == Some(rest)
  {
    var text := opening + ": " + rest;
    if opening == [] {
      assert text[2..] == rest;
    } else {
      assert text[0] == opening[0];
      assert text[1..] == opening[1..] + ": " + rest;
      AfterOpening(opening[1..], rest);
    }
  }

  // ---------- The texts the reasons are written with ----------

  lemma OtherOpening(opening: string, text: string, i: nat)
    requires i < |opening| && i < |text| && opening[i] != text[i]
    ensures !(opening <= text)
  {
  }

  lemma PrefixAfter(a: string, b: string, x: string)
    ensures a + b <= a + x <==> b <= x
  {
    assert (a + x)[|a|..] == x;
    if b <= x {
      assert a + x == a + b + x[|b|..];
    }
    if a + b <= a + x {
      assert b == (a + x)[|a|..][..|b|];
    }
  }

  predicate AreClean(items: seq<string>, separator: string) {
    forall item | item in items :: !Holds(item, separator)
  }

  lemma PiiCodeReadsBack(rest: string)
    ensures CodeOf("pii: " + rest) == if SCANNER_DOWN <= rest then PiiScanUnavailable else PiiFound
  {
    var text := "pii: " + rest;
    OtherOpening("possible phishing", text, 1);
    OtherOpening("no policy context", text, 0);
    assert text[..4] == "pii:";
    assert "pii: PRESIDIO_UNAVAILABLE" == "pii: " + SCANNER_DOWN;
    PrefixAfter("pii: ", SCANNER_DOWN, rest);
  }

  // A leak's text reads as the scanner being down only when the first leak's name starts like that.
  lemma PiiTextReadsBack(leaks: seq<string>)
    requires leaks != []
    ensures var text := "pii: " + Joined(leaks, ", ");
            && (CodeOf(text) == PiiFound <==> !(SCANNER_DOWN <= Joined(leaks, ", ")))
            && (ItemsOf(text) == leaks <==> CodeOf(text) == PiiFound && AreClean(leaks, ", "))
  {
    var rest := Joined(leaks, ", ");
    PiiCodeReadsBack(rest);
    assert "pii: " + rest == "pii" + ": " + rest;
    AfterOpening("pii", rest);
    SplitUndoesJoin(leaks, ", ");
  }

  lemma FiguresTextReadsBack(figures: seq<string>)
    requires figures != []
    ensures var text := "figures not in source: " + Joined(figures, ", ");
            CodeOf(text) == FiguresNotInSource && (ItemsOf(text) == figures <==> AreClean(figures, ", "))
  {
    var rest := Joined(figures, ", ");
    var text := "figures not in source: " + rest;
    assert text[0] == 'f' && text[..22] == "figures not in source:";
    assert text == "figures not in source" + ": " + rest;
    AfterOpening("figures not in source", rest);
    SplitUndoesJoin(figures, ", ");
  }

  lemma RequestsCodeReadsBack(rest: string)
    ensures CodeOf("does not address: " + rest) == DoesNotAddress
  {
    var text := "does not address: " + rest;
    assert text[0] == 'd' && text[..17] == "does not address:";
    OtherOpening("does not address everything", text, 16);
  }

  lemma RequestsTextReadsBack(requests: seq<string>)
    requires requests != []
    ensures var text := "does not address: " + Joined(requests, "; ");
            CodeOf(text) == DoesNotAddress && (ItemsOf(text) == requests <==> AreClean(requests, "; "))
  {
    var rest := Joined(requests, "; ");
    RequestsCodeReadsBack(rest);
    assert "does not address: " + rest == "does not address" + ": " + rest;
    AfterOpening("does not address", rest);
    SplitUndoesJoin(requests, "; ");
  }

  lemma ScanTextReadsBack(text: string)
    requires text == "pii: " + SCANNER_DOWN
    ensures CodeOf(text) == PiiScanUnavailable
  {
    assert text == "pii: PRESIDIO_UNAVAILABLE";
    OtherOpening("possible phishing", text, 1);
    OtherOpening("no policy context", text, 0);
  }

  lemma CriticTextReadsBack(text: string)
    requires "critic unavailable: " <= text
    ensures CodeOf(text) == CriticUnavailable
  {
    assert text[0] == 'c' && text[..18] == "critic unavailable";
  }

  lemma GroundingTextReadsBack(text: string)
    requires text == "grounding check failed"
    ensures CodeOf(text) == GroundingFailed
  {
    assert text[0] == 'g';
  }

  lemma IncompleteTextReadsBack(text: string)
    requires text == "does not address everything asked"
    ensures CodeOf(text) == Incomplete
  {
    assert text[0] == 'd' && text[..27] == "does not address everything";
  }

  lemma RoundsTextReadsBack(text: string)
    requires "needed " <= text
    ensures CodeOf(text) == RefineRounds
  {
    assert text[0] == 'n' && text[1] == 'e';
  }

  lemma StoppedTextReadsBack(text: string)
    requires "repair stopped: " <= text
    ensures CodeOf(text) == RepairStopped
  {
    assert text[0] == 'r' && text[..14] == "repair stopped";
  }

  lemma ConfidenceTextReadsBack(text: string)
    requires "confidence " <= text
    ensures CodeOf(text) == LowConfidence
  {
    OtherOpening("critic unavailable", text, 1);
    assert text[0] == 'c';
  }

  lemma NoTextReadsBack(text: string)
    requires "no " <= text && |text| > 4
    ensures "no policy context" <= text ==> CodeOf(text) == NotGrounded
    ensures "no reply drafted" <= text ==> CodeOf(text) == NoReply
    ensures "no draft:" <= text ==> CodeOf(text) == NoDraft
  {
    assert text[0] == 'n' && text[1] == 'o';
    NoOther(text);
    if "no reply drafted" <= text {
      assert text[3] == 'r';
    } else if "no draft:" <= text {
      assert text[3] == 'd';
    }
  }

  lemma NoOther(text: string)
    requires |text| > 4 && text[0] == 'n' && text[1] == 'o'
    ensures CodeOf(text) ==
      if "no policy context" <= text then NotGrounded
      else if "no reply drafted" <= text then NoReply
      else if "no draft:" <= text then NoDraft
      else Unknown
  {
    OtherOpening("needed ", text, 1);
  }

  // The openings of the reasons given outside the review of a draft, and texts of no known opening.
  lemma OtherTextsReadBack(text: string)
    ensures "possible phishing" <= text ==> CodeOf(text) == PhishingLink
    ensures "no policy context" <= text ==> CodeOf(text) == NotGrounded
    ensures "no reply drafted" <= text ==> CodeOf(text) == NoReply
    ensures "no draft:" <= text ==> CodeOf(text) == NoDraft
    ensures text == [] || text[0] !in "pnfcgdr" ==> CodeOf(text) == Unknown
  {
    if "no " <= text && |text| > 4 {
      NoTextReadsBack(text);
    }
  }

  // How each reason's text starts, or is made of its items.
  predicate IsWritten(flag: Flag) {
    match flag.code
    case PiiFound => flag.items != [] && flag.text == "pii: " + Joined(flag.items, ", ")
    case FiguresNotInSource => flag.items != [] && flag.text == "figures not in source: " + Joined(flag.items, ", ")
    case DoesNotAddress => flag.items != [] && flag.text == "does not address: " + Joined(flag.items, "; ")
    case RefineRounds => flag.items != [] && "needed " <= flag.text
    case _ => flag.items == [] && IsOpened(flag.code, flag.text)
  }

  // The texts that list nothing.
  predicate IsOpened(code: Code, text: string) {
    match code
    case PiiScanUnavailable => text == "pii: " + SCANNER_DOWN
    case CriticUnavailable => "critic unavailable: " <= text
    case GroundingFailed => text == "grounding check failed"
    case Incomplete => text == "does not address everything asked"
    case RepairStopped => "repair stopped: " <= text
    case LowConfidence => "confidence " <= text
    case _ => false
  }

  lemma ScanReasonsAreWritten(c: Candidate, flag: Flag)
    requires flag in ScanReasons(c)
    ensures IsWritten(flag)
  {
  }

  lemma CriticReasonsAreWritten(c: Candidate, flag: Flag)
    requires flag in CriticReasons(c)
    ensures IsWritten(flag)
  {
  }

  lemma RoundReasonsAreWritten(show: Show, c: Candidate, attempts: nat, stoppedBy: Option<string>, flag: Flag)
    requires flag in RoundReasons(show, c, attempts, stoppedBy)
    ensures IsWritten(flag)
  {
  }

  // Read as the scanner being down, since the first leak's name starts like that.
  predicate IsMistaken(flag: Flag) {
    flag.code.PiiFound? && SCANNER_DOWN <= Joined(flag.items, ", ")
  }

  // A list comes back when none of its items holds its separator; the number of rounds never does.
  predicate KeepsItems(flag: Flag) {
    match flag.code
    case PiiFound => !IsMistaken(flag) && AreClean(flag.items, ", ")
    case FiguresNotInSource => AreClean(flag.items, ", ")
    case DoesNotAddress => AreClean(flag.items, "; ")
    case RefineRounds => false
    case _ => true
  }

  predicate ReadsBack(flag: Flag) {
    && (CodeOf(flag.text) == flag.code <==> !IsMistaken(flag))
    && (ItemsOf(flag.text) == flag.items <==> KeepsItems(flag))
  }

  /**
   A reason reads back as its own code exactly unless its first leak is named like the scanner being down; and its
   items come back exactly when no item of a list holds its separator and the reason is not the number of rounds.
   */
  lemma EveryReasonReadsBack(show: Show, c: Candidate, attempts: nat, stoppedBy: Option<string>, flag: Flag)
    requires flag in ReviewReasons(show, c, attempts, stoppedBy)
    ensures ReadsBack(flag)
  {
    if flag in ScanReasons(c) {
      ScanReasonsAreWritten(c, flag);
    } else if flag in CriticReasons(c) {
      CriticReasonsAreWritten(c, flag);
    } else {
      RoundReasonsAreWritten(show, c, attempts, stoppedBy, flag);
    }
    WrittenReadsBack(flag);
  }

  function RoundsFlag(attempts: nat): Flag {
    Flag(RefineRounds, "needed " + (Digits(attempts) + " refine round(s)"), [Digits(attempts)])
  }

  // So every rewritten draft has a reason whose item is lost.
  lemma RoundsAreNeverReadBack(show: Show, c: Candidate, attempts: nat, stoppedBy: Option<string>)
    requires attempts > 0
    ensures RoundsFlag(attempts) in ReviewReasons(show, c, attempts, stoppedBy)
    ensures CodeOf(RoundsFlag(attempts).text) == RefineRounds && ItemsOf(RoundsFlag(attempts).text) == []
  {
    RoundsAreGiven(show, c, attempts, stoppedBy);
    RoundsListNothing(RoundsFlag(attempts).text);
  }

  lemma RoundsListNothing(text: string)
    requires "needed " <= text
    ensures CodeOf(text) == RefineRounds && ItemsOf(text) == []
  {
    RoundsTextReadsBack(text);
  }

  lemma RoundsAreGiven(show: Show, c: Candidate, attempts: nat, stoppedBy: Option<string>)
    requires attempts > 0
    ensures RoundsFlag(attempts) in ReviewReasons(show, c, attempts, stoppedBy)
  {
    assert RoundReasons(show, c, attempts, stoppedBy)[0] == RoundsFlag(attempts);
  }

  lemma WrittenReadsBack(flag: Flag)
    requires IsWritten(flag)
    ensures ReadsBack(flag)
  {
    match flag.code
    case PiiFound => PiiTextReadsBack(flag.items);
    case FiguresNotInSource => FiguresTextReadsBack(flag.items);
    case DoesNotAddress => RequestsTextReadsBack(flag.items);
    case RefineRounds => RoundsTextReadsBack(flag.text);
    case _ => OpenedReadsBack(flag.code, flag.text);
  }

  lemma OpenedReadsBack(code: Code, text: string)
    requires IsOpened(code, text)
    ensures CodeOf(text) == code
  {
    match code
    case PiiScanUnavailable => ScanTextReadsBack(text);
    case CriticUnavailable => CriticTextReadsBack(text);
    case GroundingFailed => GroundingTextReadsBack(text);
    case Incomplete => IncompleteTextReadsBack(text);
    case RepairStopped => StoppedTextReadsBack(text);
    case LowConfidence => ConfidenceTextReadsBack(text);
  }
}
