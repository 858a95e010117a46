/** Seat arithmetic shared by both games (keezen/player.py and mejn/player.py):
    players sit in a fixed list and turns pass to the next index, wrapping
    around. Keezen additionally groups the players into teams of two. */
module Seats {
  import opened Common

  /** `get_next_player`: the player after seat i in a list of n players. */
  function NextSeat(i: nat, n: nat): (r: nat)
    requires i < n
    ensures r < n
    ensures i + 1 < n ==> r == i + 1
    ensures i + 1 == n ==> r == 0
  {
    (i + 1) % n
  }

  /** `get_prev_player`: the player before seat i; Python's `%` on the
      negative index -1 wraps to the last seat. */
  function PrevSeat(i: nat, n: nat): (r: nat)
    requires i < n
    ensures r < n
    ensures NextSeat(r, n) == i
  {
    (i - 1 + n) % n
  }

  lemma NextThenPrev(i: nat, n: nat)
    requires i < n
    ensures PrevSeat(NextSeat(i, n), n) == i
  {
    if i + 1 == n {
      assert NextSeat(i, n) == 0;
      assert (0 - 1 + n) % n == n - 1;
    } else {
      assert NextSeat(i, n) == i + 1;
      assert (i + 1 - 1 + n) % n == i;
    }
  }

  /** The four-player cycle of test_player.py: North, East, South, West. */
  lemma FourSeatCycle()
    ensures NextSeat(0, 4) == 1 && NextSeat(1, 4) == 2
    ensures NextSeat(2, 4) == 3 && NextSeat(3, 4) == 0
    ensures PrevSeat(0, 4) == 3
  {
  }

  /** `Team(name, players)` sets `team` on each member: teamOf maps a seat
      to the index of its team, and joining overwrites only the members. */
  function JoinTeam(teamOf: map<nat, nat>, team: nat, members: seq<nat>): (r: map<nat, nat>)
    ensures forall p :: p in members ==> p in r && r[p] == team
    ensures forall p :: p in teamOf && p !in members ==> p in r && r[p] == teamOf[p]
    ensures forall p :: p in r ==> p in teamOf || p in members
    decreases |members|
  {
    if |members| == 0 then teamOf
    else JoinTeam(teamOf[members[0] := team], team, members[1..])
  }

  /** `get_team_mate`: the first member of the team other than p, or None. */
  function TeamMate(members: seq<nat>, p: nat): (r: Option<nat>)
    ensures r.Some? ==> r.value != p && r.value in members
    ensures r.None? <==> forall q :: q in members ==> q == p
  {
    if |members| == 0 then None
    else if members[0] != p then Some(members[0])
    else
      assert members == [p] + members[1..];
      TeamMate(members[1..], p)
  }

  /** In a team of two distinct players each is the other's team mate. */
  lemma TeamMateOfTeamMate(a: nat, b: nat)
    requires a != b
    ensures TeamMate([a, b], a) == Some(b)
    ensures TeamMate([a, b], b) == Some(a)
  {
    assert [a, b][1..] == [b];
  }

  /** The two teams used by the game adapter: North with South (Green and
      Blue) and East with West (Red and Yellow). */
  function StandardTeams(): seq<seq<nat>>
  {
    [[0, 2], [1, 3]]
  }

  /** Seat arithmetic for the standard teams: the partner sits two seats on. */
  function PartnerSeat(p: nat): (r: nat)
    requires p < 4
    ensures r < 4 && r != p
    ensures (r + 2) % 4 == p
  {
    (p + 2) % 4
  }

  /** The standard teams make `PartnerSeat` the team mate of every seat, and
      joining both teams gives each seat its team's index. */
  lemma StandardTeamsPartner(p: nat)
    requires p < 4
    ensures TeamMate(StandardTeams()[p % 2], p) == Some(PartnerSeat(p))
    ensures var t := JoinTeam(JoinTeam(map[], 0, [0, 2]), 1, [1, 3]);
            p in t && t[p] == p % 2
  {
    if p == 0 || p == 2 {
      TeamMateOfTeamMate(0, 2);
    } else {
      TeamMateOfTeamMate(1, 3);
    }
  }
}
