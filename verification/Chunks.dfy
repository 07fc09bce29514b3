/**
 Cutting attachment text into pieces the recogniser takes in one call: at a line break where that fits, else after a
 space, and only then between two characters. Text is bytes; what counts as valid is section 3 of RFC 3629.
 */
module Chunks {
  import opened Collections
  import opened Common

  const NEWLINE: Byte := 10
  const SPACE: Byte := 32
  const TAB: Byte := 9

  // ---------- UTF-8 ----------

  predicate IsRuneStart(b: Byte) {
    !(0x80 <= b < 0xC0)
  }

  // The length of the character a text starts with; 0 when it starts with none.
  function RuneLen(s: Bytes): (n: nat)
    ensures n <= |s| && n <= 4
  {
    if s == [] then 0
    else if s[0] < 0x80 then 1
    else if 0xC2 <= s[0] <= 0xDF && |s| >= 2 && !IsRuneStart(s[1]) then 2
    else if 0xE0 <= s[0] <= 0xEF && |s| >= 3 && !IsRuneStart(s[1]) && !IsRuneStart(s[2])
            && (s[0] == 0xE0 ==> s[1] >= 0xA0) && (s[0] == 0xED ==> s[1] <= 0x9F) then 3
    else if 0xF0 <= s[0] <= 0xF4 && |s| >= 4 && !IsRuneStart(s[1]) && !IsRuneStart(s[2]) && !IsRuneStart(s[3])
            && (s[0] == 0xF0 ==> s[1] >= 0x90) && (s[0] == 0xF4 ==> s[1] <= 0x8F) then 4
    else 0
  }

  predicate IsUtf8(s: Bytes) {
    s == [] || (RuneLen(s) > 0 && IsUtf8(s[RuneLen(s)..]))
  }

  lemma RuneStays(s: Bytes, t: Bytes)
    requires RuneLen(s) > 0 && s[..RuneLen(s)] <= t
    ensures RuneLen(t) == RuneLen(s)
  {
    assert forall i :: 0 <= i < RuneLen(s) ==> t[i] == s[..RuneLen(s)][i];
  }

  lemma {:induction false} Utf8Concat(a: Bytes, b: Bytes)
    requires IsUtf8(a) && IsUtf8(b)
    ensures IsUtf8(a + b)
    decreases |a|
  {
    if a == [] {
      assert a + b == b;
    } else {
      var n := RuneLen(a);
      CutInFirst(a, b, n);
      RuneStays(a, a + b);
      Utf8Concat(a[n..], b);
    }
  }

  // Valid text cut where a character starts is valid on both sides.
  lemma {:induction false} Utf8Split(s: Bytes, k: nat)
    requires IsUtf8(s) && k < |s| && IsRuneStart(s[k])
    ensures IsUtf8(s[..k]) && IsUtf8(s[k..])
    decreases |s|
  {
    if k == 0 {
      assert s[0..] == s;
    } else {
      var n := RuneLen(s);
      Utf8Split(s[n..], k - n);
      CutAgain(s, n, k);
      assert IsUtf8(s[..n]) by {
        assert RuneLen(s[..n]) == n && s[..n][n..] == [];
      }
      Utf8Concat(s[..n], s[n..k]);
    }
  }

  lemma OneByte(b: Byte)
    requires b < 0x80
    ensures IsUtf8([b])
  {
    assert [b][1..] == [];
  }

  lemma Utf8SplitAfter(s: Bytes, k: nat)
    requires IsUtf8(s) && 0 < k <= |s| && s[k - 1] < 0x80
    ensures IsUtf8(s[..k]) && IsUtf8(s[k..])
  {
    Utf8Split(s, k - 1);
    CutAgain(s, k - 1, k);
    assert s[k - 1..k] == [s[k - 1]];
    OneByte(s[k - 1]);
    Utf8Concat(s[..k - 1], [s[k - 1]]);
  }

  // The character a place lies in starts at most three bytes before it.
  lemma {:induction false} StartIsNear(s: Bytes, k: nat) returns (j: nat)
    requires IsUtf8(s) && k < |s|
    ensures k - 3 <= j <= k && IsRuneStart(s[j]) && (RuneLen(s) <= k ==> j > 0)
    decreases |s|
  {
    var n := RuneLen(s);
    if k < n {
      return 0;
    }
    j := StartIsNear(s[n..], k - n);
    j := n + j;
  }

  // ---------- Where a line is cut ----------

  predicate IsBlank(b: Byte) {
    b == SPACE || b == TAB
  }

  method LastIndexOfBlank(s: Bytes) returns (i: int)
    ensures -1 <= i < |s| && (i >= 0 ==> IsBlank(s[i]))
    ensures forall j :: i < j < |s| ==> !IsBlank(s[j])
  {
    i := |s| - 1;
    while i >= 0 && !IsBlank(s[i])
      invariant -1 <= i < |s|
      invariant forall j :: i < j < |s| ==> !IsBlank(s[j])
    {
      i := i - 1;
    }
  }

  predicate EndsAtBreak(chunk: Bytes) {
    chunk != [] && (chunk[|chunk| - 1] == NEWLINE || IsBlank(chunk[|chunk| - 1]))
  }

  // No break inside it to cut at, and as long as a piece can be.
  predicate IsUnbroken(chunk: Bytes, max: nat) {
    |chunk| > max - 4 && forall j :: 0 < j < |chunk| ==> !IsBlank(chunk[j])
  }

  /**
   The last blank before max, or else the last place at or before max where a character starts. The cut makes no
   progress exactly when the line's first character is longer than max.
   */
  method CutPoint(line: Bytes, max: nat) returns (cut: nat)
    requires IsUtf8(line) && |line| > max
    ensures cut <= max && IsUtf8(line[..cut]) && IsUtf8(line[cut..])
    ensures cut == 0 <==> RuneLen(line) > max
    ensures cut > 0 ==> EndsAtBreak(line[..cut]) || IsUnbroken(line[..cut], max)
    ensures cut > 0 ==> forall j :: cut <= j < max ==> !IsBlank(line[j])
  {
    var space := LastIndexOfBlank(line[..max]);
    NoneBehind(line, max, space);
    if space > 0 {
      CutBehindBlank(line, space);
      return space + 1;
    }
    cut := max;
    var j := StartIsNear(line, max);
    while cut > 0 && !IsRuneStart(line[cut])
      invariant j <= cut <= max
    {
      cut := cut - 1;
    }
    CutAtStart(line, max, cut);
  }

  lemma CutBehindBlank(line: Bytes, space: nat)
    requires IsUtf8(line) && 0 < space < |line| && IsBlank(line[space])
    ensures IsUtf8(line[..space + 1]) && IsUtf8(line[space + 1..]) && EndsAtBreak(line[..space + 1])
    ensures RuneLen(line) <= space
  {
    Utf8SplitAfter(line, space + 1);
    FirstRuneEnds(line, space);
  }

  lemma CutAtStart(line: Bytes, max: nat, cut: nat)
    requires IsUtf8(line) && cut <= max < |line| && IsRuneStart(line[cut]) && cut + 4 > max
    requires forall j {:trigger line[j]} :: 0 < j < max ==> !IsBlank(line[j])
    ensures IsUtf8(line[..cut]) && IsUtf8(line[cut..])
    ensures cut > 0 ==> RuneLen(line) <= cut && IsUnbroken(line[..cut], max)
  {
    Utf8Split(line, cut);
    if cut > 0 {
      FirstRuneEnds(line, cut);
    }
  }

  lemma NoneBehind(line: Bytes, max: nat, space: int)
    requires max <= |line| && -1 <= space < max && forall j :: space < j < max ==> !IsBlank(line[..max][j])
    ensures forall j {:trigger line[j]} :: 0 <= j && space < j < max ==> !IsBlank(line[j])
  {
    forall j {:trigger line[j]} | 0 <= j && space < j < max ensures !IsBlank(line[j]) {
      assert line[..max][j] == line[j];
    }
  }

  // A later character starts only behind the first one.
  lemma FirstRuneEnds(line: Bytes, k: nat)
    requires IsUtf8(line) && 0 < k < |line| && IsRuneStart(line[k])
    ensures RuneLen(line) <= k
  {
  }

  // ---------- Lines and chunks ----------

  function LineEnd(text: Bytes): (n: nat)
    ensures n <= |text| && (forall i :: 0 <= i < n ==> text[i] != NEWLINE) && (n < |text| ==> text[n] == NEWLINE)
  {
    if text == [] || text[0] == NEWLINE then 0 else 1 + LineEnd(text[1..])
  }

  // Each line with its newline; the last one is what follows the last newline, if only nothing.
  function SplitAfter(text: Bytes): (lines: seq<Bytes>)
    ensures lines != []
    decreases |text|
  {
    var n := LineEnd(text);
    if n == |text| then [text] else [text[..n + 1]] + SplitAfter(text[n + 1..])
  }

  predicate EndsLine(s: Bytes) {
    s != [] && s[|s| - 1] == NEWLINE
  }

  predicate IsLine(line: Bytes) {
    IsUtf8(line) && forall k :: 0 <= k < |line| - 1 ==> line[k] != NEWLINE
  }

  ghost predicate AreLines(lines: seq<Bytes>) {
    && (forall i :: 0 <= i < |lines| ==> IsLine(lines[i]))
    && forall i :: 0 <= i < |lines| - 1 ==> EndsLine(lines[i])
  }

  lemma {:induction false} LinesAreTheText(text: Bytes)
    ensures Flat(SplitAfter(text)) == text
    decreases |text|
  {
    var n := LineEnd(text);
    if n < |text| {
      LinesAreTheText(text[n + 1..]);
      assert text == text[..n + 1] + text[n + 1..];
    } else {
      FlatOne(text);
    }
  }

  lemma OneMoreLine(line: Bytes, rest: seq<Bytes>)
    requires EndsLine(line) && IsLine(line) && rest != [] && AreLines(rest)
    ensures AreLines([line] + rest)
  {
  }

  lemma {:induction false} LinesEndInNewlines(text: Bytes)
    requires IsUtf8(text)
    ensures AreLines(SplitAfter(text))
    decreases |text|
  {
    var n := LineEnd(text);
    if n < |text| {
      Utf8SplitAfter(text, n + 1);
      LinesEndInNewlines(text[n + 1..]);
      OneMoreLine(text[..n + 1], SplitAfter(text[n + 1..]));
    }
  }

  predicate IsChunk(chunk: Bytes, max: nat) {
    0 < |chunk| <= max && IsUtf8(chunk)
  }

  // Every chunk is short enough and whole; all but the last end at a break, unless they hold none to end at.
  predicate AreChunks(chunks: seq<Bytes>, max: nat) {
    && (forall i :: 0 <= i < |chunks| ==> IsChunk(chunks[i], max))
    && forall i :: 0 <= i < |chunks| - 1 ==> EndsAtBreak(chunks[i]) || IsUnbroken(chunks[i], max)
  }

  // The same, with a chunk to follow.
  predicate AreInnerChunks(chunks: seq<Bytes>, max: nat) {
    forall i :: 0 <= i < |chunks| ==>
      IsChunk(chunks[i], max) && (EndsAtBreak(chunks[i]) || IsUnbroken(chunks[i], max))
  }

  /**
   A chunk and the text behind it: the next line does not fit in with the chunk, and a chunk that ends inside a line
   holds no other line and is cut behind the last blank it could be cut behind.
   */
  predicate IsPacked(chunk: Bytes, behind: Bytes, max: nat) {
    && |chunk| <= max < |chunk| + |behind|
    && (forall k :: 0 <= k < max - |chunk| ==> behind[k] != NEWLINE)
    && (EndsLine(chunk) || ((forall k :: 0 <= k < |chunk| ==> chunk[k] != NEWLINE)
                            && forall k :: 0 <= k < max - |chunk| ==> !IsBlank(behind[k])))
  }

  ghost predicate ArePacked(chunks: seq<Bytes>, behind: Bytes, max: nat) {
    forall i {:trigger chunks[i]} :: 0 <= i < |chunks| ==> IsPacked(chunks[i], Flat(chunks[i + 1..]) + behind, max)
  }

  lemma OneMorePacked(chunks: seq<Bytes>, chunk: Bytes, behind: Bytes, max: nat)
    requires ArePacked(chunks, chunk + behind, max) && IsPacked(chunk, behind, max)
    ensures ArePacked(chunks + [chunk], behind, max)
  {
    var more := chunks + [chunk];
    forall i {:trigger more[i]} | 0 <= i < |more| ensures IsPacked(more[i], Flat(more[i + 1..]) + behind, max) {
      if i < |chunks| {
        assert more[i + 1..] == chunks[i + 1..] + [chunk] && more[i] == chunks[i];
        OneMorePiece(chunks[i + 1..], chunk);
        Associates(Flat(chunks[i + 1..]), chunk, behind);
      } else {
        assert more[i + 1..] == [];
        EmptyFront(behind);
      }
    }
  }

  // In the chunks a text was cut into, each has behind it the ones that follow.
  lemma PackedInFront(chunks: seq<Bytes>, last: Bytes, max: nat)
    requires ArePacked(chunks, last, max)
    ensures var more := chunks + [last];
            forall i {:trigger more[i]} :: 0 <= i < |chunks| ==> IsPacked(more[i], Flat(more[i + 1..]), max)
  {
    var more := chunks + [last];
    forall i {:trigger more[i]} | 0 <= i < |chunks| ensures IsPacked(more[i], Flat(more[i + 1..]), max) {
      assert more[i + 1..] == chunks[i + 1..] + [last] && more[i] == chunks[i];
      OneMorePiece(chunks[i + 1..], last);
    }
  }

  lemma SameEnd(a: Bytes, b: Bytes)
    ensures EndsLine(b) ==> EndsLine(a + b)
  {
  }

  lemma EmptyFront(a: Bytes)
    ensures [] + a == a
  {
  }

  lemma CutIsPacked(rest: Bytes, cut: nat, behind: Bytes, max: nat)
    requires 0 < cut <= max < |rest| && IsLine(rest) && forall j :: cut <= j < max ==> !IsBlank(rest[j])
    ensures IsPacked(rest[..cut], rest[cut..] + behind, max)
    ensures (IsUtf8(rest[cut..]) ==> IsLine(rest[cut..])) && (EndsLine(rest) ==> EndsLine(rest[cut..]))
  {
    forall k {:trigger (rest[cut..] + behind)[k]} | 0 <= k < max - cut
      ensures (rest[cut..] + behind)[k] == rest[cut + k] && rest[cut + k] != NEWLINE && !IsBlank(rest[cut + k])
    {
      assert (rest[cut..] + behind)[k] == rest[cut..][k];
    }
  }

  // One chunk more off a line too long for one.
  lemma CutStep(chunks: seq<Bytes>, rest: Bytes, cut: nat, behind: Bytes, max: nat)
    requires 0 < cut <= max < |rest| && IsLine(rest) && IsUtf8(rest[cut..])
    requires ArePacked(chunks, rest + behind, max) && forall j :: cut <= j < max ==> !IsBlank(rest[j])
    ensures Flat(chunks + [rest[..cut]]) + rest[cut..] == Flat(chunks) + rest
    ensures IsLine(rest[cut..]) && (EndsLine(rest) ==> EndsLine(rest[cut..]))
    ensures ArePacked(chunks + [rest[..cut]], rest[cut..] + behind, max)
  {
    OneMorePiece(chunks, rest[..cut]);
    Associates(Flat(chunks), rest[..cut], rest[cut..]);
    Associates(rest[..cut], rest[cut..], behind);
    assert rest == rest[..cut] + rest[cut..];
    CutIsPacked(rest, cut, behind, max);
    OneMorePacked(chunks, rest[..cut], rest[cut..] + behind, max);
  }

  // A line longer than max is cut until the rest of it fits; behind is the text that follows it.
  method CutLine(before: seq<Bytes>, line: Bytes, max: nat, ghost behind: Bytes)
    returns (chunks: seq<Bytes>, rest: Bytes)
    requires IsLine(line) && max >= 4 && AreInnerChunks(before, max)
    requires |line| > max ==> ArePacked(before, line + behind, max)
    ensures Flat(chunks) + rest == Flat(before) + line && AreInnerChunks(chunks, max)
    ensures |line| > max ==> ArePacked(chunks, rest + behind, max)
    ensures |rest| <= max && IsUtf8(rest)
    ensures |line| <= max ==> chunks == before && rest == line
    ensures EndsLine(line) ==> EndsLine(rest)
  {
    chunks, rest := before, line;
    while |rest| > max
      invariant Flat(chunks) + rest == Flat(before) + line && AreInnerChunks(chunks, max) && IsLine(rest)
      invariant |line| > max ==> ArePacked(chunks, rest + behind, max)
      invariant |line| <= max ==> chunks == before && rest == line
      invariant EndsLine(line) ==> EndsLine(rest)
      decreases |rest|
    {
      var cut := CutPoint(rest, max);
      CutStep(chunks, rest, cut, behind, max);
      chunks, rest := chunks + [rest[..cut]], rest[cut..];
    }
  }

  function Flushed(chunks: seq<Bytes>, current: Bytes, max: nat): (r: seq<Bytes>)
    requires AreInnerChunks(chunks, max) && |current| <= max && IsUtf8(current)
    ensures Flat(r) == Flat(chunks) + current && AreChunks(r, max)
    ensures r == if current == [] then chunks else chunks + [current]
    ensures current == [] || EndsAtBreak(current) ==> AreInnerChunks(r, max)
  {
    OneMorePiece(chunks, current);
    if current == [] then chunks else chunks + [current]
  }

  // The line behind the current piece: where both fit, or where there is none.
  method AddLine(before: seq<Bytes>, piece: Bytes, line: Bytes, max: nat, ghost behind: Bytes)
    returns (chunks: seq<Bytes>, current: Bytes)
    requires max >= 4 && IsLine(line) && AreInnerChunks(before, max) && IsUtf8(piece)
    requires ArePacked(before, piece + (line + behind), max)
    requires piece == [] || |piece| + |line| <= max
    ensures Flat(chunks) + current == Flat(before) + (piece + line)
    ensures AreInnerChunks(chunks, max) && |current| <= max && IsUtf8(current)
    ensures ArePacked(chunks, current + behind, max)
    ensures EndsLine(line) ==> EndsLine(current)
  {
    EmptyFront(line);
    EmptyFront(line + behind);
    Associates(piece, line, behind);
    var rest;
    chunks, rest := CutLine(before, line, max, behind);
    Utf8Concat(piece, rest);
    EmptyFront(rest);
    SameEnd(piece, rest);
    current := piece + rest;
  }

  // The text up to some place and the rest of it, as chunks and the piece begun.
  ghost predicate IsCutUpTo(done: Bytes, behind: Bytes, chunks: seq<Bytes>, current: Bytes, max: nat) {
    && Flat(chunks) + current == done && AreInnerChunks(chunks, max) && |current| <= max && IsUtf8(current)
    && ArePacked(chunks, current + behind, max)
  }

  lemma LineDoesNotFit(piece: Bytes, line: Bytes, behind: Bytes, max: nat)
    requires EndsLine(piece) && IsLine(line) && |piece| <= max < |piece| + |line|
    ensures IsPacked(piece, line + behind, max)
  {
    assert forall k :: 0 <= k < max - |piece| ==> (line + behind)[k] == line[k];
  }

  // One line more, the piece before it flushed where they do not both fit.
  method NextLine(ghost done: Bytes, before: seq<Bytes>, piece: Bytes, line: Bytes, max: nat, ghost behind: Bytes)
    returns (chunks: seq<Bytes>, current: Bytes)
    requires max >= 4 && IsLine(line) && IsCutUpTo(done, line + behind, before, piece, max)
    requires piece == [] || EndsLine(piece)
    ensures IsCutUpTo(done + line, behind, chunks, current, max)
    ensures EndsLine(line) ==> EndsLine(current)
  {
    chunks, current := before, piece;
    Associates(Flat(chunks), current, line);
    if |current| + |line| > max {
      if current != [] {
        LineDoesNotFit(current, line, behind, max);
        OneMorePacked(chunks, current, line + behind, max);
      }
      chunks, current := Flushed(chunks, current, max), [];
      EmptyFront(line);
      EmptyFront(line + behind);
    }
    chunks, current := AddLine(chunks, current, line, max, behind);
  }

  // The n-th line is one, and what comes before it and behind it.
  lemma LineAt(text: Bytes, n: nat)
    requires IsUtf8(text) && n < |SplitAfter(text)|
    ensures var lines := SplitAfter(text);
            && IsLine(lines[n]) && (n + 1 < |lines| ==> EndsLine(lines[n]))
            && Flat(lines[..n + 1]) == Flat(lines[..n]) + lines[n]
            && Flat(lines[n..]) == lines[n] + Flat(lines[n + 1..])
  {
    LinesEndInNewlines(text);
    FlatUpTo(SplitAfter(text), n);
  }

  lemma FlatUpTo(lines: seq<Bytes>, n: nat)
    requires n < |lines|
    ensures Flat(lines[..n + 1]) == Flat(lines[..n]) + lines[n]
    ensures Flat(lines[n..]) == lines[n] + Flat(lines[n + 1..])
  {
    assert lines[..n + 1] == lines[..n] + [lines[n]];
    OneMorePiece(lines[..n], lines[n]);
    FromHere(lines, n);
  }

  /**
   The chunks, one after the other, are the text; each is valid, not empty and at most max bytes; all but the last
   end at a line break or a blank, unless no blank could be found in a whole piece; and none ends sooner than it
   must: the next line does not fit in with it, and inside a line it is cut behind the last blank that fits.
   */
  method ChunkText(text: Bytes, max: nat) returns (chunks: seq<Bytes>)
    requires IsUtf8(text) && max >= 4
    ensures Flat(chunks) == text && AreChunks(chunks, max)
    ensures forall i {:trigger chunks[i]} :: 0 <= i < |chunks| - 1 ==> IsPacked(chunks[i], Flat(chunks[i + 1..]), max)
  {
    chunks := [];
    var current: Bytes := [];
    var lines := SplitAfter(text);
    for n := 0 to |lines|
      invariant IsCutUpTo(Flat(lines[..n]), Flat(lines[n..]), chunks, current, max)
      invariant n == |lines| || current == [] || EndsLine(current)
    {
      LineAt(text, n);
      chunks, current := NextLine(Flat(lines[..n]), chunks, current, lines[n], max, Flat(lines[n + 1..]));
    }
    LinesAreTheText(text);
    assert lines[..|lines|] == lines && Flat(lines[|lines|..]) == [];
    assert current + [] == current;
    if current == [] {
      assert forall i {:trigger chunks[i]} :: 0 <= i < |chunks| ==> Flat(chunks[i + 1..]) + [] == Flat(chunks[i + 1..]);
    } else {
      PackedInFront(chunks, current, max);
    }
    chunks := Flushed(chunks, current, max);
  }
}
