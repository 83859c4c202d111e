/**
 * Views of the round history `history_data`: its starts, its ends, and the
 * start-to-ends adjacency that `preprocess_data` caches as `start_slot_mapping`.
 */
module History {
  import opened Registry
  import opened Counting

  /** The start ids of the history, in order. */
  function Starts(h: seq<Round>): (s: seq<int>)
    ensures |s| == |h|
  {
    if h == [] then [] else Starts(h[..|h| - 1]) + [h[|h| - 1].start]
  }

  /** The end ids of the history, in order. */
  function Ends(h: seq<Round>): (s: seq<int>)
    ensures |s| == |h|
  {
    if h == [] then [] else Ends(h[..|h| - 1]) + [h[|h| - 1].end]
  }

  /** The ends of the rounds that began at slot s, in chronological order. */
  function EndsFor(h: seq<Round>, s: int): seq<int> {
    if h == [] then []
    else EndsFor(h[..|h| - 1], s) + (if h[|h| - 1].start == s then [h[|h| - 1].end] else [])
  }

  /**
   * The adjacency of a history, built as `preprocess_data` does: each round
   * in turn appends its end to the list of its start.
   */
  function Adjacency(h: seq<Round>): map<int, seq<int>> {
    if h == [] then map[]
    else
      var m := Adjacency(h[..|h| - 1]);
      var r := h[|h| - 1];
      m[r.start := Get(m, r.start, []) + [r.end]]
  }

  /** The length of each list of a mapping. */
  function Lengths(m: map<int, seq<int>>): map<int, nat> {
    map k | k in m :: |m[k]|
  }

  /** The i-th start and end are those of the i-th round. */
  lemma {:induction false} StartsAt(h: seq<Round>, i: nat)
    requires i < |h|
    ensures Starts(h)[i] == h[i].start && Ends(h)[i] == h[i].end
    decreases |h|
  {
    if i < |h| - 1 {
      StartsAt(h[..|h| - 1], i);
    }
  }

  /** Both sides of a history whose rounds are registered lie in the registry range. */
  lemma SidesInRange(h: seq<Round>)
    requires forall i :: 0 <= i < |h| ==> ValidRound(h[i])
    ensures forall i :: 0 <= i < |h| ==> FirstSlot <= Starts(h)[i] < EndSlot
    ensures forall i :: 0 <= i < |h| ==> FirstSlot <= Ends(h)[i] < EndSlot
  {
    forall i | 0 <= i < |h|
      ensures FirstSlot <= Starts(h)[i] < EndSlot && FirstSlot <= Ends(h)[i] < EndSlot
    {
      StartsAt(h, i);
      SlotsAreRange(h[i].start);
      SlotsAreRange(h[i].end);
    }
  }

  lemma StartsSnoc(h: seq<Round>, r: Round)
    ensures Starts(h + [r]) == Starts(h) + [r.start]
    ensures Ends(h + [r]) == Ends(h) + [r.end]
  {
  }

  /** The list of ends for s is as long as s occurs among the starts. */
  lemma {:induction false} EndsForLength(h: seq<Round>, s: int)
    ensures |EndsFor(h, s)| == Occurrences(Starts(h), s)
    decreases |h|
  {
    if h != [] {
      var init := h[..|h| - 1];
      assert h == init + [h[|h| - 1]];
      EndsForLength(init, s);
      StartsSnoc(init, h[|h| - 1]);
      assert multiset(Starts(h)) == multiset(Starts(init)) + multiset{h[|h| - 1].start};
    }
  }

  /** Appending a round to the history appends its end to the list of its start, nothing else changes. */
  lemma AdjacencySnoc(h: seq<Round>, r: Round)
    ensures Adjacency(h + [r]) == Adjacency(h)[r.start := Get(Adjacency(h), r.start, []) + [r.end]]
  {
    assert (h + [r])[..|h|] == h;
  }

  /**
   * The adjacency holds exactly the starts that occur, and looking a start
   * up gives the ends of the rounds that began there, in chronological order.
   */
  lemma {:induction false} AdjacencyGet(h: seq<Round>, s: int)
    ensures s in Adjacency(h) <==> s in Starts(h)
    ensures Get(Adjacency(h), s, []) == EndsFor(h, s)
    decreases |h|
  {
    if h != [] {
      var init := h[..|h| - 1];
      assert h == init + [h[|h| - 1]];
      AdjacencyGet(init, s);
      StartsSnoc(init, h[|h| - 1]);
    }
  }

  /** The lengths of the adjacency lists are the start counts. */
  lemma AdjacencyLengths(h: seq<Round>)
    ensures Lengths(Adjacency(h)) == Tally(Starts(h))
  {
    var a := Lengths(Adjacency(h));
    var b := Tally(Starts(h));
    forall s
      ensures s in a <==> s in b
      ensures s in a ==> a[s] == b[s]
    {
      AdjacencyGet(h, s);
      EndsForLength(h, s);
      TallyKeys(Starts(h), s);
    }
    assert a == b;
  }

  /** A new round always changes the adjacency: a cache built before it is stale. */
  lemma AdjacencyStale(h: seq<Round>, r: Round)
    ensures Adjacency(h + [r]) != Adjacency(h)
  {
    AdjacencySnoc(h, r);
    assert |Get(Adjacency(h + [r]), r.start, [])| == |Get(Adjacency(h), r.start, [])| + 1;
  }

}
