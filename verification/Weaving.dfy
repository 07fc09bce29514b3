// Text put together from pieces that stay and pieces that are put in between them.
module Weaving {
  // gap, insert, gap, insert, ..., gap.
  function Woven(gaps: seq<string>, inserts: seq<string>): string
    requires |gaps| == |inserts| + 1
  {
    if inserts == [] then gaps[0] else gaps[0] + (inserts[0] + Woven(gaps[1..], inserts[1..]))
  }

  lemma WovenOnward(gap: string, gaps: seq<string>, insert: string, inserts: seq<string>)
    requires |gaps| == |inserts| + 1
    ensures Woven([gap] + gaps, [insert] + inserts) == gap + (insert + Woven(gaps, inserts))
  {
    assert ([gap] + gaps)[1..] == gaps && ([insert] + inserts)[1..] == inserts;
  }

  // The parts with the separator between them.
  function Joined(parts: seq<string>, separator: string): string {
    if parts == [] then "" else if |parts| == 1 then parts[0] else parts[0] + separator + Joined(parts[1..], separator)
  }
}
