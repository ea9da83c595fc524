/** The Team record of a division and its head-to-head lookup. */
module Teams {
  import opened Wrappers

  /** One team: its id (the row of the input it was read from), its name, its
      record so far, and the games it has left against each team, indexed by
      that team's id. */
  datatype Team = Team(id: int, name: string, wins: int, losses: int, remaining: int, against: seq<int>)
  {
    /** Games left against the team with id `other`. `against` is a Python
        list, so a negative index counts from its end; any other index outside
        the list is reported as a ValueError. */
    function GetAgainst(other: int): (r: Result<int>)
      ensures r.Ok? <==> -|against| <= other < |against|
      ensures r.Ok? && 0 <= other ==> r.value == against[other]
      ensures r.Ok? && other < 0 ==> r.value == against[|against| + other]
      ensures r.Err? ==> r.error == ValueError(NotInInput)
    {
      if 0 <= other < |against| then Ok(against[other])
      else if -|against| <= other < 0 then Ok(against[|against| + other])
      else Err(ValueError(NotInInput))
    }
  }

  /** A negative opponent index reads the same entry as that index plus the
      length of the list. */
  lemma GetAgainstNegativeWraps(t: Team, other: int)
    requires -|t.against| <= other < 0
    ensures t.GetAgainst(other) == t.GetAgainst(other + |t.against|)
  {
  }

  /** The games `other` may still win without finishing ahead of `candidate`
      when `candidate` wins every game it has left: the arithmetic of
      max_allowed. */
  function Headroom(candidate: Team, other: Team): int
  {
    candidate.wins + candidate.remaining - other.wins - 1
  }

  /** The headroom is negative exactly when `other` already has at least as many
      wins as `candidate` can reach. */
  lemma HeadroomNegative(candidate: Team, other: Team)
    ensures Headroom(candidate, other) < 0 <==> candidate.wins + candidate.remaining <= other.wins
  {
  }
}
