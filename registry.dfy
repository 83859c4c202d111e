/**
 * The fixed slot registry of the tracker: ids 1 to 8 and their display names,
 * and the round record, a (start, end) pair of slot ids.
 */
module Registry {

  /** The registry `slots`: id to display name. */
  const Slots: map<int, string> := map[
    1 := "Melon",
    2 := "Orange",
    3 := "Apple",
    4 := "Lettuce",
    5 := "Fish",
    6 := "Burger",
    7 := "Shrimp",
    8 := "Chicken"
  ]

  /** Lowest and one past the highest registered id: the registry is the range [FirstSlot, EndSlot). */
  const FirstSlot: int := 1
  const EndSlot: int := 9

  /** `range(1, 9)`, the ids the zero-total distribution lists. */
  const SlotRange: set<int> := set i | FirstSlot <= i < EndSlot

  /** `id in self.slots` */
  predicate IsSlot(id: int) {
    id in Slots
  }

  /** The registry is exactly the dense range of ids 1..8. */
  lemma SlotsAreRange(id: int)
    ensures IsSlot(id) <==> FirstSlot <= id < EndSlot
  {
  }

  /** One recorded round: a `(start, end)` tuple of `history_data`. */
  datatype Round = Round(start: int, end: int)

  /** Both ids of the round are registered. */
  predicate ValidRound(r: Round) {
    IsSlot(r.start) && IsSlot(r.end)
  }

}
