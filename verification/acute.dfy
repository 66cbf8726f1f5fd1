/** The "acute" panel: a per-node, per-day history of commit changes and the
    four-column heat strip drawn from it.

    The history is a nested map node id -> day key -> accumulated change. Day
    keys are whatever the clock produces (`YYYY-MM-DD` strings in the source);
    the clock itself is a parameter. */
module Acute {
  import opened Text
  import opened Graph

  type Day = string
  type History = map<Id, map<Day, int>>

  /** The value a heat cell shows: the stored change, or 0 when the node or the
      day has no entry (a stored 0 reads as 0 either way). */
  function Lookup(h: History, node: Id, day: Day): (r: int)
    ensures node in h && day in h[node] ==> r == h[node][day]
    ensures node !in h || day !in h[node] ==> r == 0
  {
    if node in h && day in h[node] then h[node][day] else 0
  }

  /** `trackCommitChange`: an unchanged commit leaves the history alone;
      otherwise today's entry for the node moves by the change, starting from 0
      when the node or the day has no entry yet, and every other entry keeps
      its value. */
  function TrackCommitChange(h: History, node: Id, today: Day, oldCommit: int, newCommit: int): (r: History)
    ensures oldCommit == newCommit ==> r == h
    ensures oldCommit != newCommit ==>
      && r.Keys == h.Keys + {node}
      && Lookup(r, node, today) == Lookup(h, node, today) + (newCommit - oldCommit)
    ensures forall n, d :: (n != node || d != today) ==> Lookup(r, n, d) == Lookup(h, n, d)
  {
    var change := newCommit - oldCommit;
    if change == 0 then h
    else
      var row := if node in h then h[node] else map[];
      var current := if today in row then row[today] else 0;
      h[node := row[today := current + change]]
  }

  /** Two changes on the same day, old -> mid -> new, leave the same readings as
      the single change old -> new. (The maps themselves can differ: a net change
      of 0 still leaves an explicit 0 entry.) */
  lemma {:induction false} TrackCommitChangeTwice(h: History, node: Id, today: Day, a: int, b: int, c: int, n: Id, d: Day)
    ensures Lookup(TrackCommitChange(TrackCommitChange(h, node, today, a, b), node, today, b, c), n, d)
            == Lookup(TrackCommitChange(h, node, today, a, c), n, d)
  {
  }

  // ---------------------------------------------------------------------------
  // heat colours
  // ---------------------------------------------------------------------------

  const ColorHigh: string := "#216e39"
  const ColorMid: string := "#30a14e"
  const ColorLow: string := "#40c463"
  const ColorNone: string := "#ebedf0"

  /** The cell colour for a day's accumulated change. */
  function HeatColor(v: int): (c: string)
    ensures c == ColorHigh <==> v > 20
    ensures c == ColorMid <==> 10 < v <= 20
    ensures c == ColorLow <==> 0 < v <= 10
    ensures c == ColorNone <==> v <= 0
  {
    if v > 20 then ColorHigh
    else if v > 10 then ColorMid
    else if v > 0 then ColorLow
    else ColorNone
  }

  /** How many of the thresholds 0, 10 and 20 the value exceeds. */
  function HeatLevel(v: int): nat
  {
    (if v > 0 then 1 else 0) + (if v > 10 then 1 else 0) + (if v > 20 then 1 else 0)
  }

  /** The four colours, palest first. */
  const Palette: seq<string> := [ColorNone, ColorLow, ColorMid, ColorHigh]

  /** The colour is the palette entry of the value's level: the buckets are the
      level sets of a monotone function, so a larger change never gets a paler
      cell. */
  lemma {:induction false} HeatColorIsMonotone(v: int, w: int)
    ensures HeatLevel(v) < 4 && HeatColor(v) == Palette[HeatLevel(v)]
    ensures v <= w ==> HeatLevel(v) <= HeatLevel(w)
  {
  }

  /** A node or day with no history shows the empty colour. */
  lemma {:induction false} MissingEntryShowsEmpty(h: History, node: Id, day: Day)
    requires node !in h || day !in h[node]
    ensures HeatColor(Lookup(h, node, day)) == ColorNone
  {
  }

  // ---------------------------------------------------------------------------
  // the table
  // ---------------------------------------------------------------------------

  /** Number of day columns: today and the three days before. */
  const DayColumns: nat := 4

  /** Header of column `i`: `Td` for today, `D-i` for `i` days ago. */
  function ColumnLabel(i: nat): string
  {
    if i == 0 then "Td" else "D-" + NatToString(i)
  }

  function ColumnLabels(): (r: seq<string>)
    ensures r == ["Td", "D-1", "D-2", "D-3"]
  {
    assert NatToString(1) == "1" && NatToString(2) == "2" && NatToString(3) == "3";
    var r := seq(DayColumns, i requires 0 <= i < DayColumns => ColumnLabel(i));
    assert r[1] == "D-1" && r[2] == "D-2" && r[3] == "D-3";
    r
  }

  /** One table row: the node's name and one colour per day key, `days[0]`
      being today. */
  function AcuteRow(h: History, node: Node, days: seq<Day>): (r: (string, seq<string>))
    ensures r.0 == node.name && |r.1| == |days|
    ensures forall k :: 0 <= k < |days| ==> r.1[k] == HeatColor(Lookup(h, node.id, days[k]))
    ensures forall k :: 0 <= k < |days| ==>
      (r.1[k] == ColorNone <==> Lookup(h, node.id, days[k]) <= 0)
  {
    (node.name, seq(|days|, k requires 0 <= k < |days| => HeatColor(Lookup(h, node.id, days[k]))))
  }
}
