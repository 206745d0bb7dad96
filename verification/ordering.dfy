/** Move ordering for the search (chess.cpp:497-514, 560-577): most valuable
    victim, least valuable attacker first. */
module Ordering {
  import opened Squares
  import opened Pieces
  import opened MoveGen

  /** The sort key: victim value minus attacker value for a capture, 0 for a
      quiet move. */
  function CaptureKey(b: Board, m: Move): (k: int)
    ensures m.captured.Empty? ==> k == 0
    ensures k > 0 <==> m.captured.Occupied? && PieceValue(m.captured) > PieceValue(b[m.from])
    ensures -20000 <= k <= 20000
  {
    if m.captured.Occupied? then PieceValue(m.captured) - PieceValue(b[m.from]) else 0
  }

  /** Keys never increase along the list. */
  ghost predicate NonIncreasing(b: Board, ms: seq<Move>) {
    forall i, j :: 0 <= i < j < |ms| ==> CaptureKey(b, ms[i]) >= CaptureKey(b, ms[j])
  }

  /** Puts `m` in front of the first move whose key is not above its own. */
  function Insert(b: Board, m: Move, sorted: seq<Move>): (r: seq<Move>)
    requires NonIncreasing(b, sorted)
    ensures NonIncreasing(b, r)
    ensures multiset(r) == multiset(sorted) + multiset{m}
    ensures forall x :: x in r ==> x == m || x in sorted
  {
    if sorted == [] || CaptureKey(b, sorted[0]) <= CaptureKey(b, m) then
      [m] + sorted
    else
      var rest := Insert(b, m, sorted[1..]);
      assert sorted == [sorted[0]] + sorted[1..];
      PrependHead(b, m, sorted, rest);
      [sorted[0]] + rest
  }

  /** The head of a sorted list stays in front of the rest with `m`
      inserted, when `m`'s key is below the head's. */
  lemma PrependHead(b: Board, m: Move, sorted: seq<Move>, rest: seq<Move>)
    requires sorted != [] && NonIncreasing(b, sorted) && NonIncreasing(b, rest)
    requires CaptureKey(b, m) < CaptureKey(b, sorted[0])
    requires forall x :: x in rest ==> x == m || x in sorted[1..]
    ensures NonIncreasing(b, [sorted[0]] + rest)
  {
    forall j | 0 <= j < |rest|
      ensures CaptureKey(b, rest[j]) <= CaptureKey(b, sorted[0])
    {
      assert rest[j] in rest;
      if rest[j] != m {
        var k :| 0 <= k < |sorted[1..]| && sorted[1..][k] == rest[j];
        assert sorted[k + 1] == rest[j];
      }
    }
    var r := [sorted[0]] + rest;
    forall i, j | 0 <= i < j < |r|
      ensures CaptureKey(b, r[i]) >= CaptureKey(b, r[j])
    {
      if i > 0 {
        assert r[i] == rest[i - 1];
      }
      assert r[j] == rest[j - 1];
    }
  }

  /** The source's `std::sort` with the MVV-LVA comparison. The source's sort
      leaves the order of equal keys open; this one keeps generation order. */
  function SortMoves(b: Board, ms: seq<Move>): (r: seq<Move>)
    ensures NonIncreasing(b, r)
    ensures multiset(r) == multiset(ms)
  {
    if ms == [] then []
    else
      assert ms == [ms[0]] + ms[1..];
      Insert(b, ms[0], SortMoves(b, ms[1..]))
  }

  /** The sorted list holds the same moves. */
  lemma SortMovesMembers(b: Board, ms: seq<Move>, m: Move)
    ensures m in SortMoves(b, ms) <==> m in ms
    ensures |SortMoves(b, ms)| == |ms|
  {
    var r := SortMoves(b, ms);
    assert m in r <==> m in multiset(r);
    assert m in ms <==> m in multiset(ms);
    assert |r| == |multiset(r)| == |multiset(ms)| == |ms|;
  }
}
