# Keezen and mejn rules engine in Dafny

This project models the rules engine of two four-player marble race games,
Keezen and "Mens-erger-je-niet" (mejn), and proves properties of it. Both
games share a board pattern. Each seat owns a block of fields:

- four HOME fields, of which index 0 is the dead end;
- a junction at index 4;
- its START field at index 5;
- a stretch of neutral track;
- four WAIT fields (the pen).

A Keezen block has 24 fields and a mejn block has 18. The last track field
of a block leads to the junction of the next block.

Keezen is played with cards. Every card value maps to one or more card
operations: START a waiting marble, RUN n fields (backwards for the four),
SWITCH two marbles, or SPLIT seven steps over one or two marbles. Mejn is
played with a die.

The model covers the following, one Dafny module per concern:

- `Layout`: the field layout and the adjacency graph of both boards.
- `BoardState`: the board as a map from field to marble, `put_marble_on_field`, the pens, the initial board and `reset`.
- `Paths`, `KeezenPaths`, `MejnPaths`: path walking (`get_path_for_color` with `is_next_field_allowed`).
- `Seats`: seat arithmetic and teams.
- `Cards`: the deck bookkeeping of `CardState`.
- `Rules`: the rules table.
- `Moves`: moves, hit moves and applying them.
- `CardOps`: the four card operations.
- `KeezenGame`: Keezen allowed moves and game over.
- `KeezenBoard`: the Keezen board invariant (well formed, and every home field held by its own colour), kept by every card move.
- `CarryFinding`: a board on which the carry-over of the seven, as `cardop.py` writes it, sends a finished marble back to its pen.
- `KeezenDeal`: dealing a round.
- `KeezenStep`: Keezen `init_game` and `step`, and the card bookkeeping every step keeps.
- `KeezenActions`: the Keezen action ids, `get_raw_action` with `get_marble_position`.
- `MejnGame`: the mejn game.
- `MejnActions`: the mejn action ids and their table.

Modelling choices:

- Colours are seat indices 0..3 (Green, Red, Blue, Yellow), in the order the players are built.
- Fields are integers. Their type, colour and neighbours follow from the id by block arithmetic.
- A marble is a (colour, index) pair.
- Hands, stock and played pile are sequences.
- Every operation is a pure function over immutable values.
- Where the source raises, the model mostly returns `Err` or `None`. Where the source raises because a marble stands on no field, the model instead gives a quiet answer: an empty path, "not blocked", "not in the pen", "not at home". Each member that answers so is listed under "## Left out", and so is each member that inherits the answer. A well-formed board puts every marble on a field (`BoardState.OnKindOnWellFormed`), so none of these cases arise in a game.
- The randomness of the source is an input:
  - the `random.shuffle` of the deck becomes a key sequence (`Cards.Shuffle`). Every permutation is reachable (`Cards.ShuffleKeys`).
  - the die of mejn becomes a parameter in 1..6.
- The teams are those the Keezen adapter builds: Green with Blue, Red with Yellow. So a seat's team mate sits two seats on (`Seats.PartnerSeat`).

## Model

| member | source | states |
|---|---|---|
| Common.StepBack | rlcard_keezen_dqn/rlcard/games/keezen/game.py:276-281 | stepping back gives nothing exactly when the history is empty; otherwise it gives the last recorded state, and the history is what remains without it |
| Common.StepBackUndoesRecord | rlcard_keezen_dqn/rlcard/games/mejn/game.py:160-165 | the history is a stack: recording a state and stepping back returns that state and restores the earlier history |
| Layout.StartField | rlcard_keezen_dqn/rlcard/games/keezen/board.py:98-99 | the start field of a colour is a START field of that colour |
| Layout.WaitField | rlcard_keezen_dqn/rlcard/games/keezen/board.py:37-56 | each of the four pen fields of a colour is a WAIT field of that colour |
| Layout.LastHomeField | rlcard_keezen_dqn/rlcard/games/keezen/board.py:101-102 | the last home field of a colour is a HOME field of that colour with no successor |
| Layout.StartFieldUnique | rlcard_keezen_dqn/rlcard/games/keezen/board.py:98-99 | a field is a START field of colour c exactly when it is c's start field |
| Layout.HomeListExact | rlcard_keezen_dqn/rlcard/games/keezen/board.py:37-56 | the board's home list holds exactly the HOME fields |
| Layout.StartListExact | rlcard_keezen_dqn/rlcard/games/keezen/board.py:37-56 | the board's start list holds exactly the START fields |
| Layout.WaitListExact | rlcard_keezen_dqn/rlcard/games/keezen/board.py:37-56 | the board's wait list holds exactly the WAIT fields |
| Layout.FieldListsIncreasing | rlcard_keezen_dqn/rlcard/games/keezen/board.py:37-56 | the three field lists are strictly increasing, so no field is listed twice |
| Layout.NeighboursAreFields | rlcard_keezen_dqn/rlcard/games/keezen/board.py:57-84 | every next and previous field of a field lies on the same board |
| Layout.AdjacencyShape | rlcard_keezen_dqn/rlcard/games/keezen/board.py:57-84 | wait fields have no neighbours; the dead end has no successor; the junction leads to the owner's START first and the owner's HOME entrance second; the last track field leads to the next block's junction, wrapping round |
| Layout.AdjacencySymmetric | rlcard_keezen_dqn/rlcard/games/keezen/board.py:57-84 | x is a next field of f exactly when f is a previous field of x |
| Layout.MejnBoardFacts | rlcard_keezen_dqn/rlcard/games/mejn/test_board.py:27-69 | the mejn board has 72 fields with 16 home, 4 start and 16 wait fields; fields 4, 22, 40 and 58 have two successors; the dead ends 0, 18, 36 and 54 have none; the start fields are 5, 23, 41 and 59 |
| BoardState.AllMarbles | rlcard_keezen_dqn/rlcard/games/keezen/board.py:86-93 | there are sixteen marbles, and every (colour, index) pair is one of them |
| BoardState.MarblesWithColor | rlcard_keezen_dqn/rlcard/games/keezen/board.py:95-96 | exactly the four marbles of the colour, in index order |
| BoardState.MarbleAt | rlcard_keezen_dqn/rlcard/games/keezen/board.py:263-266 | the marble on a field, present exactly when the field is occupied |
| BoardState.FieldOf | rlcard_keezen_dqn/rlcard/games/keezen/board.py:252-256 | a field holding the marble, and none exactly when no field holds it |
| BoardState.FieldOfOnInjective | rlcard_keezen_dqn/rlcard/games/keezen/board.py:252-256 | on a board where no marble stands twice, looking up the field of the marble on f gives f back |
| BoardState.Put | rlcard_keezen_dqn/rlcard/games/keezen/board.py:269-279 | afterwards the marble is on the target and its old field is empty; the previous occupant is returned and is off the board; a move onto the marble's own field changes nothing and returns none; all other fields are unchanged |
| BoardState.MarblesOnKind | rlcard_keezen_dqn/rlcard/games/keezen/board.py:111-117 | exactly the given marbles that stand on a field of the type; it keeps them all exactly when all stand there |
| BoardState.OnKindOnWellFormed | rlcard_keezen_dqn/rlcard/games/keezen/board.py:111-117 | on a well-formed board every marble stands on a field, and it counts as on a field type exactly when its field has that type |
| BoardState.WaitingMarble | rlcard_keezen_dqn/rlcard/games/keezen/board.py:123-127 | the lowest-index marble of the colour that is in its pen, and none exactly when the pen holds no marble of the colour |
| BoardState.FinishedIffAllHome | rlcard_keezen_dqn/rlcard/games/keezen/board.py:119-121 | with a finishing count of four, a colour is finished exactly when all four of its marbles are on HOME fields |
| BoardState.EmptyWaitField | rlcard_keezen_dqn/rlcard/games/keezen/board.py:105-109 | the first free WAIT field of the colour, and none exactly when all four are occupied |
| BoardState.FreeWaitFieldExists | rlcard_keezen_dqn/rlcard/games/keezen/board.py:105-109 | on a well-formed board, a colour with a marble outside its pen always has a free wait field |
| BoardState.FullPenHasNoFreeField | rlcard_keezen_dqn/rlcard/games/mejn/test_board.py:71-81 | while all four marbles of a colour wait, its pen has no free field |
| BoardState.PutOnFreeWaitField | rlcard_keezen_dqn/rlcard/games/keezen/board.py:282-288 | sending a marble from outside its pen to a free wait field of its colour keeps the board well formed and moves no other marble |
| BoardState.InitialBoard | rlcard_keezen_dqn/rlcard/games/keezen/board.py:241-249 | every marble is on its own distinct wait field of its colour, and the board is well formed |
| BoardState.Reset | rlcard_keezen_dqn/rlcard/games/keezen/board.py:282-288 | a well-formed board stays well formed; afterwards every marble is in its pen, and a marble already in its pen keeps its wait field |
| BoardState.ResetMarbles | rlcard_keezen_dqn/rlcard/games/keezen/board.py:282-288 | the loop over the marbles: each marble visited and each marble already in a pen ends in its pen, the latter on its old wait field; the first marble, if out of its pen, takes the first free wait field of its colour on the board it finds |
| BoardState.ResetStep | rlcard_keezen_dqn/rlcard/games/keezen/board.py:284-288 | one turn of the loop: the marble ends in its pen, on the first free wait field of its colour if it was out of it, and every marble already in a pen stays on its field |
| Paths.FirstAllowed | rlcard_keezen_dqn/rlcard/games/keezen/board.py:143-149 | the first candidate the rule allows: none exactly when the rule allows none, and the first candidate itself when it is allowed |
| Paths.Hop | rlcard_keezen_dqn/rlcard/games/keezen/board.py:139-149 | one step of the walk goes to an allowed neighbour in the walking direction, and fails exactly when no neighbour is allowed |
| Paths.WalkIsChain | rlcard_keezen_dqn/rlcard/games/keezen/board.py:138-149 | every field of a walk is the hop taken from the field before it, and a walk that falls short of its budget ends where no hop is possible |
| Paths.ChainIsWalk | rlcard_keezen_dqn/rlcard/games/keezen/board.py:138-149 | a chain of hops that is full length, or ends where no hop is possible, is the walk |
| Paths.WalkPrefix | rlcard_keezen_dqn/rlcard/games/keezen/board.py:138-151 | a walk with a smaller budget is a prefix of one with a larger budget; a walk that stopped early is the same for every larger budget |
| Paths.WalkConcat | rlcard_keezen_dqn/rlcard/games/keezen/board.py:138-149 | walking j hops in full and then k more from where it ended is walking j + k hops |
| Paths.FullChainIsWalk | rlcard_keezen_dqn/rlcard/games/keezen/board.py:138-152 | a chain of hops as long as the whole budget is the walk, so the walk is the only full-length path |
| Paths.PathFrom | rlcard_keezen_dqn/rlcard/games/keezen/board.py:136-152 | the path has at most \|n\| fields and is a chain of hops; without the shorter-path flag it is empty or exactly \|n\| long; with the flag, or at full length, it is the walk itself; whenever a chain of all \|n\| hops exists, that chain is returned |
| KeezenPaths.PathForColor | rlcard_keezen_dqn/rlcard/games/keezen/board.py:136-174 | the path is empty or exactly \|n\| fields long, or a prefix with the shorter-path flag; every hop goes to a neighbour in the walking direction; no foreign home is entered; a backward path never touches a home field; a forward path avoids the own start field under the default flags; a start or home field held by its own colour blocks, except the own start field when the flag for the direction allows it; whenever the rules allow a path of all \|n\| hops, that path is returned |
| KeezenPaths.PathForMarble | rlcard_keezen_dqn/rlcard/games/keezen/board.py:130-133 | the path of the marble's colour from the marble's field; a waiting marble has no path; from a field of the board, a path of all \|n\| hops the rules allow is the one returned |
| KeezenPaths.WaitIsStuck | rlcard_keezen_dqn/rlcard/games/keezen/board.py:57-84 | a marble on a wait field has no path, short or full |
| KeezenPaths.HopRules | rlcard_keezen_dqn/rlcard/games/keezen/board.py:155-174 | an allowed hop never enters a foreign home, never leaves a home backwards, never enters the own start forwards under the default flag, and never enters a start or home field held by that field's own colour unless it is the own start field and the direction's flag is set |
| KeezenPaths.KeezenChainRules | rlcard_keezen_dqn/rlcard/games/keezen/board.py:155-174 | the single-hop rules hold for every hop of a chain |
| KeezenPaths.HomeIsOneWay | rlcard_keezen_dqn/rlcard/games/keezen/board.py:57-84 | once a forward chain has entered a home spur it stays in that home, one field deeper per hop |
| KeezenPaths.ForwardPathHomeIsOneWay | rlcard_keezen_dqn/rlcard/games/keezen/board.py:136-174 | after the first home field of a forward path, every later field is a deeper home field of the walker's colour |
| KeezenPaths.PathOnBoard | rlcard_keezen_dqn/rlcard/games/keezen/board.py:136-152 | a path never leaves the board |
| KeezenPaths.ForwardAtOwnJunction | rlcard_keezen_dqn/rlcard/games/keezen/board.py:164-174 | under the default flags, a marble at its own junction turns into its home entrance; if a marble of its colour already holds the entrance, it is stuck |
| KeezenPaths.OwnerBlocksStart | rlcard_keezen_dqn/rlcard/games/keezen/board.py:168-173 | a marble on its own start field stops every marble of another colour running forwards past it |
| KeezenPaths.BackwardOntoOwnStart | rlcard_keezen_dqn/rlcard/games/keezen/board.py:164-165 | a backward hop onto the own start field is decided by the backward flag alone, whoever stands there |
| KeezenPaths.FourBackFromStart | rlcard_keezen_dqn/rlcard/games/keezen/board.py:136-174 | running four back from the own start field passes the junction and goes three fields down the previous block's track, whatever the board holds |
| KeezenPaths.PathLeaves | rlcard_keezen_dqn/rlcard/games/keezen/board.py:136-174 | a non-empty path of fewer than 64 steps never ends on the field it started from |
| KeezenPaths.HomePathLeaves | rlcard_keezen_dqn/rlcard/games/keezen/board.py:57-84 | a path that starts in a home spur ends on a lower field, deeper in that spur |
| KeezenPaths.RingPathLeaves | rlcard_keezen_dqn/rlcard/games/keezen/board.py:136-174 | a path that starts on the ring of track, junction and start fields and does not end in a home never comes back to its first field in fewer than 64 steps |
| KeezenPaths.PathOffHome | rlcard_keezen_dqn/rlcard/games/keezen/board.py:136-174 | a path whose last field is not a home field passes no home field |
| MejnPaths.PathForColor | rlcard_keezen_dqn/rlcard/games/mejn/board.py:135-164 | the path is empty or exactly \|n\| fields long, or a prefix with the shorter-path flag; every hop goes to a next field; it never enters a foreign home, a home field holding a marble of the walker's colour, or the walker's own start field; whenever the rules allow a path of all \|n\| hops, that path is returned |
| MejnPaths.MejnHopRules | rlcard_keezen_dqn/rlcard/games/mejn/board.py:151-164 | an allowed mejn hop goes to a next field, never into a foreign home or an own home field held by the own colour, and never onto the own start field |
| MejnPaths.PathForMarble | rlcard_keezen_dqn/rlcard/games/mejn/board.py:129-132 | the path of the marble's colour from the marble's field; a waiting marble has no path; from a field of the board, a path of all \|n\| hops the rules allow is the one returned |
| MejnPaths.TrackPaths | rlcard_keezen_dqn/rlcard/games/mejn/test_board.py:94-106 | blue from 41 running 6 gives 42..47, and green from 40 running 2 gives [41, 42], whoever stands on those fields |
| MejnPaths.HomeRunPaths | rlcard_keezen_dqn/rlcard/games/mejn/test_board.py:107-113 | with no blue marble in blue's home, blue from 31 running 5 gives [40, 39, 38, 37, 36], and blue from 40 running 5 gives no path |
| MejnPaths.Route | rlcard_keezen_dqn/rlcard/games/mejn/board.py:57-83 | a field is off a colour's route exactly when it is a wait field or a foreign home field |
| MejnPaths.RouteHop | rlcard_keezen_dqn/rlcard/games/mejn/board.py:151-164 | every hop the mejn rule may take moves exactly one place further along the walker's route |
| MejnPaths.PathAlongRoute | rlcard_keezen_dqn/rlcard/games/mejn/board.py:135-148 | field i of a path lies i + 1 places further along the walker's route than the starting field |
| Seats.NextSeat | rlcard_keezen_dqn/rlcard/games/keezen/player.py:17-22 | the next seat is i + 1, and 0 after the last seat |
| Seats.PrevSeat | rlcard_keezen_dqn/rlcard/games/keezen/player.py:24-28 | the previous seat is a seat whose next seat is i |
| Seats.NextThenPrev | rlcard_keezen_dqn/rlcard/games/mejn/player.py:16-27 | the previous seat of the next seat is the seat itself, so the two are inverses |
| Seats.FourSeatCycle | rlcard_keezen_dqn/rlcard/games/mejn/test_player.py:16-20 | with four players the next seat cycles 0, 1, 2, 3, 0, and the seat before 0 is 3 |
| Seats.JoinTeam | rlcard_keezen_dqn/rlcard/games/keezen/player.py:40-46 | every member gets the team, every other seat keeps its team, and no other seat appears |
| Seats.TeamMate | rlcard_keezen_dqn/rlcard/games/keezen/player.py:30-34 | the team mate is another member of the team, never the player; there is none exactly when the player is the team's only member |
| Seats.TeamMateOfTeamMate | rlcard_keezen_dqn/rlcard/games/keezen/player.py:30-34 | in a team of two, each player is the other's team mate |
| Seats.PartnerSeat | rlcard_keezen_dqn/rlcard/games/keezen/keezengameadapter.py:19-20 | the partner is a different seat, two seats on |
| Seats.StandardTeamsPartner | rlcard_keezen_dqn/rlcard/games/keezen/keezengameadapter.py:19-20 | under the adapter's two teams, every seat's team mate is its partner seat, and joining both teams gives each seat its team |
| Cards.SuitValue | rlcard_keezen_dqn/rlcard/games/keezen/card.py:90-94 | the four suits number 0..3 |
| Cards.Rank | rlcard_keezen_dqn/rlcard/games/keezen/card.py:97-110 | a card value numbers from 1 (ace) to 13 (king) |
| Cards.ValueOfRank | rlcard_keezen_dqn/rlcard/games/keezen/card.py:97-110 | a value exists exactly for ranks 1..13 and has that rank |
| Cards.RankRoundTrip | rlcard_keezen_dqn/rlcard/games/keezen/card.py:97-110 | the rank of a card value gives back that value, so ranks tell values apart |
| Cards.Shuffle | rlcard_keezen_dqn/rlcard/games/keezen/card.py:28 | a shuffle is a permutation of the cards |
| Cards.ShuffleKeys | rlcard_keezen_dqn/rlcard/games/keezen/card.py:40 | every permutation of the cards is produced by some shuffle |
| Cards.InitialCardState | rlcard_keezen_dqn/rlcard/games/keezen/card.py:22-29 | the stock is a permutation of all cards; every hand and the played pile are empty |
| Cards.ResetCards | rlcard_keezen_dqn/rlcard/games/keezen/card.py:32-40 | all cards, wherever they were, go back to the stock as a permutation; hands and played pile are emptied |
| Cards.ResetCount | rlcard_keezen_dqn/rlcard/games/keezen/card.py:32-40 | a reset keeps the card count, and the stock then holds every card |
| Cards.DealCard | rlcard_keezen_dqn/rlcard/games/keezen/card.py:43-47 | the last stock card moves to the end of the seat's hand and nothing else changes; it fails exactly on an empty stock or an unknown seat |
| Cards.DealConserves | rlcard_keezen_dqn/rlcard/games/keezen/card.py:43-47 | dealing keeps the multiset of all cards and their count |
| Cards.RemoveFirst | rlcard_keezen_dqn/rlcard/games/keezen/card.py:54 | removing a card drops exactly one copy of it |
| Cards.PlayCards | rlcard_keezen_dqn/rlcard/games/keezen/card.py:50-56 | the played cards are appended to the pile; a single card leaves the hand and fails when it is not there; several cards clear the hand; the stock is untouched |
| Cards.PlayConserves | rlcard_keezen_dqn/rlcard/games/keezen/card.py:50-56 | playing one card keeps all cards; throwing several keeps them exactly when they are the whole hand |
| Cards.CountIsPoolSize | rlcard_keezen_dqn/rlcard/games/keezen/card.py:32-56 | \|stock\| + the hand sizes + \|played\| is the size of the multiset of all cards |
| Rules.MakeRules | rlcard_keezen_dqn/rlcard/games/keezen/rules.py:10-16 | colours switch and four marbles finish, except in KeezSimple: no switch and two marbles |
| Rules.InitializeCards | rlcard_keezen_dqn/rlcard/games/keezen/rules.py:18-33 | 52 cards with ids 0..51, each (suit, value) pair at its place in the loops and only there; no cards for an unknown game type |
| Rules.DeckDistinct | rlcard_keezen_dqn/rlcard/games/keezen/rules.py:18-33 | no two cards of the deck share suit and value |
| Rules.CardOpsOf | rlcard_keezen_dqn/rlcard/games/keezen/rules.py:35-94 | every card of a known game type has a non-empty list of operations; a run goes the card's rank, except the four, which runs -4 |
| Rules.OpsByRank | rlcard_keezen_dqn/rlcard/games/keezen/rules.py:38-93 | the ace and king start, the jack switches, only the Keez seven splits, and every other value runs |
| Rules.SimpleDiffersOnlyInSeven | rlcard_keezen_dqn/rlcard/games/keezen/rules.py:38-93 | KeezSimple and Keez agree on every value but the seven, which is Run(7) in KeezSimple and Split in Keez |
| Rules.ScheduleUsesDeck | rlcard_keezen_dqn/rlcard/games/keezen/rules.py:8 | the [5, 4, 4] schedule for four players uses exactly the 52 cards, and no earlier round empties the deck |
| Moves.HitMoves | rlcard_keezen_dqn/rlcard/games/keezen/cardop.py:191-196 | at most one hit, present exactly when the destination is occupied; it moves that marble from the destination to the first free wait field of its own colour |
| Moves.HitAlwaysLands | rlcard_keezen_dqn/rlcard/games/mejn/game.py:116-121 | on a well-formed board a marble hit outside the pens always has a wait field to go to |
| Moves.MarbleMoveKeepsBoard | rlcard_keezen_dqn/rlcard/games/keezen/game.py:185-190 | playing a marble move and then its hits keeps the board well formed: the marble is on its destination, the hit marble on its wait field, and every other marble stays put |
| KeezenBoard.InitialBoardGood | rlcard_keezen_dqn/rlcard/games/keezen/board.py:241-249 | the initial board satisfies the Keezen board invariant: well formed, and no home field holds a marble of another colour |
| KeezenBoard.PathEnd | rlcard_keezen_dqn/rlcard/games/keezen/board.py:130-174 | a marble with a non-empty path stands on a field outside its pen, and the path ends on another field that is not a wait field and is a home field only of the marble's colour |
| KeezenBoard.LegKeepsGood | rlcard_keezen_dqn/rlcard/games/keezen/game.py:185-190 | one marble move with its hits, to a field that is neither a wait field nor a foreign home, keeps the invariant; the marble lands on its destination, a hit marble goes to its pen, and every other marble stays put |
| KeezenBoard.StartKeepsGood | rlcard_keezen_dqn/rlcard/games/keezen/cardop.py:13-35 | playing a START move keeps the board invariant |
| KeezenBoard.RunKeepsGood | rlcard_keezen_dqn/rlcard/games/keezen/cardop.py:46-58 | playing a RUN of fewer than 64 fields keeps the board invariant |
| KeezenBoard.SwitchKeepsGood | rlcard_keezen_dqn/rlcard/games/keezen/cardop.py:75-89 | playing a switch of two switchable marbles keeps the board invariant |
| KeezenBoard.SingleKeepsGood | rlcard_keezen_dqn/rlcard/games/keezen/cardop.py:113-120 | playing a seven with one marble keeps the board invariant |
| KeezenBoard.PairKeepsGood | rlcard_keezen_dqn/rlcard/games/keezen/cardop.py:122-143 | playing a split of two own marbles keeps the board invariant |
| KeezenBoard.BlockedKeepsGood | rlcard_keezen_dqn/rlcard/games/keezen/cardop.py:144-163 | playing a split that moves the blocking marble first keeps the board invariant |
| KeezenBoard.LeadLegFree | rlcard_keezen_dqn/rlcard/games/keezen/cardop.py:174-176 | the home field a carry-over's own marble runs to is free and of its colour, and differs from the marble's field |
| KeezenBoard.CarryStaysHome | rlcard_keezen_dqn/rlcard/games/keezen/cardop.py:178-188 | playing a corrected carry-over keeps the board invariant, and the own marble ends on the home field its path reached |
| KeezenBoard.CarryOverKeepsGood | rlcard_keezen_dqn/rlcard/games/keezen/cardop.py:164-188 | playing any carry-over move keeps the board invariant |
| KeezenBoard.SplitKeepsGood | rlcard_keezen_dqn/rlcard/games/keezen/cardop.py:109-189 | playing any SPLIT move keeps the board invariant |
| KeezenBoard.OpKeepsGood | rlcard_keezen_dqn/rlcard/games/keezen/game.py:141-148 | playing any move of one card operation keeps the board invariant |
| KeezenBoard.RunBound | rlcard_keezen_dqn/rlcard/games/keezen/rules.py:35-94 | every RUN operation of the rules runs fewer than 64 fields |
| KeezenBoard.CardMoveKeepsGood | rlcard_keezen_dqn/rlcard/games/keezen/game.py:141-148 | playing any move of any card keeps the board invariant |
| KeezenBoard.AllowedKeepsBoard | rlcard_keezen_dqn/rlcard/games/keezen/game.py:184-190 | playing the marble moves of any allowed move other than DEAL keeps the board invariant |
| CardOps.StartMoves | rlcard_keezen_dqn/rlcard/games/keezen/cardop.py:13-28 | at most one START move, exactly when the start field is not held by the own colour and a marble waits; it moves the lowest waiting marble from its wait field to the start field |
| CardOps.StartHit | rlcard_keezen_dqn/rlcard/games/keezen/cardop.py:30-35 | onto an empty start field the move hits nothing; onto one held by another colour it carries exactly one hit, sending that marble to a free wait field of its own colour |
| CardOps.RunFor | rlcard_keezen_dqn/rlcard/games/keezen/cardop.py:49-57 | a run exists exactly when the marble has a full path; it goes from the marble's field to the path's end along that path, with the hits at the end |
| CardOps.RunMoves | rlcard_keezen_dqn/rlcard/games/keezen/cardop.py:46-58 | one RUN move for each own marble with a full path of n fields, and no other moves |
| CardOps.IsSwitchable | rlcard_keezen_dqn/rlcard/games/keezen/cardop.py:91-98 | a marble on a wait or home field is not switchable; on a start field of its own colour it is switchable only if its colour is the one played with; anywhere else it is |
| CardOps.SwitchOf | rlcard_keezen_dqn/rlcard/games/keezen/cardop.py:85-88 | each of the two marbles goes to the other's field, without hits |
| CardOps.SwitchWith | rlcard_keezen_dqn/rlcard/games/keezen/cardop.py:79-88 | a switch is offered exactly for a switchable own marble and a switchable marble of another colour |
| CardOps.SwitchMovesSpec | rlcard_keezen_dqn/rlcard/games/keezen/cardop.py:75-89 | the switch moves are exactly the switches of a switchable own marble with a switchable marble of another colour |
| CardOps.SwitchExchanges | rlcard_keezen_dqn/rlcard/games/keezen/cardop.py:85-88 | playing a switch exchanges the two marbles' fields and changes nothing else |
| CardOps.AfterMoveIsPlay | rlcard_keezen_dqn/rlcard/games/keezen/cardop.py:126-131 | the board copy on which a split tries its second marble is the board the first marble move leaves when played with its hits |
| CardOps.BlockedByOwnMarble | rlcard_keezen_dqn/rlcard/games/keezen/cardop.py:198-207 | the marble is blocked exactly when the home field of its colour that follows the field where it stopped is occupied, and then the blocker is the marble on that field |
| CardOps.BlockerIsOther | rlcard_keezen_dqn/rlcard/games/keezen/cardop.py:198-207 | on a well-formed board a marble never blocks itself |
| CardOps.SplitSingle | rlcard_keezen_dqn/rlcard/games/keezen/cardop.py:113-120 | a single-marble seven exists exactly when the marble has a full path of seven |
| CardOps.SplitPair | rlcard_keezen_dqn/rlcard/games/keezen/cardop.py:122-143 | len steps with one marble along its full short path, then the other 7 - len steps with a different marble of the same colour |
| CardOps.SplitBlocked | rlcard_keezen_dqn/rlcard/games/keezen/cardop.py:144-163 | when the marble falls short, the own marble blocking it in its home goes first with 7 - len steps and the marble follows with len; on a well-formed board they differ |
| CardOps.ChooseShape | rlcard_keezen_dqn/rlcard/games/keezen/cardop.py:113-163 | every candidate split moves one or two marbles along non-empty paths, seven steps in all; the last marble has the candidate's colour, and on a well-formed board two marbles differ |
| CardOps.PairOrBlocked | rlcard_keezen_dqn/rlcard/games/keezen/cardop.py:124-145 | for one length, only one of the two orders can yield a move |
| CardOps.MainSplits | rlcard_keezen_dqn/rlcard/games/keezen/cardop.py:113-163 | exactly the moves the candidates of the own marbles yield, each a seven over one or two distinct marbles |
| CardOps.CarryOver | rlcard_keezen_dqn/rlcard/games/keezen/cardop.py:164-188 | with the corrected team-mate hits of the Findings row: offered only to a player still on their own colour with three marbles home and no mobility there, when the fourth marble's short path ends at home; then every team-mate marble that can walk the rest gets a move |
| CardOps.CarryOverShape | rlcard_keezen_dqn/rlcard/games/keezen/cardop.py:174-188 | a carry-over takes the own marble home without hits and a team-mate marble the rest of the seven; the team mate's hits are the corrected ones of the Findings row, on the board the first leg leaves, where cardop.py:186 takes them on the board before the split |
| CardOps.CarryFor | rlcard_keezen_dqn/rlcard/games/keezen/cardop.py:178-188 | the corrected carry-over for one team-mate marble: it exists exactly when that marble can walk the rest of the seven, and its hits are taken on the board after the own marble reached home |
| CardOps.CarryForVsAsWritten | rlcard_keezen_dqn/rlcard/games/keezen/cardop.py:178-188 | the corrected and the as-written carry-over exist for the same team-mate marbles and agree in everything but the hits of the team mate's leg |
| CardOps.CarryForAsWritten | rlcard_keezen_dqn/rlcard/games/keezen/cardop.py:178-188 | the carry-over as written: it exists exactly when the team-mate marble can walk the rest of the seven; the own marble goes first without hits, and the team mate's hits are taken on the board before the split |
| CardOps.SplitMoves | rlcard_keezen_dqn/rlcard/games/keezen/cardop.py:109-189 | every split move is the player's SPLIT with the one card played |
| CardOps.SplitMovesShape | rlcard_keezen_dqn/rlcard/games/keezen/cardop.py:109-189 | every split moves one or two marbles along non-empty paths, seven steps in all; on a well-formed board two marbles differ |
| CardOps.SplitMovesSpec | rlcard_keezen_dqn/rlcard/games/keezen/cardop.py:109-189 | every split of the own marbles is offered; anything else is a carry-over, offered only when there is no own split |
| KeezenGame.OpMoves | rlcard_keezen_dqn/rlcard/games/keezen/game.py:143-147 | each move of an operation has the operation's kind, the player and the one card |
| KeezenGame.CardMoves | rlcard_keezen_dqn/rlcard/games/keezen/game.py:141-148 | exactly the moves of the operations of the card's value, none of them a fallback |
| KeezenGame.Dedup | rlcard_keezen_dqn/rlcard/games/keezen/game.py:135-138 | one card per value in the hand: only cards of the hand, no value twice, every value covered, each the first card of its value |
| KeezenGame.HandMoves | rlcard_keezen_dqn/rlcard/games/keezen/game.py:134-148 | exactly the moves of the deduplicated cards; each plays one card of the hand |
| KeezenGame.IsRoundOver | rlcard_keezen_dqn/rlcard/games/keezen/game.py:220-223 | the round is over exactly when every hand is empty |
| KeezenGame.IsOver | rlcard_keezen_dqn/rlcard/games/keezen/game.py:225-274 | over exactly when the mover's playing colour is finished and, with switching, the team mate's too; the reward is 1 for the mover (and the team mate when switching) and 0 for the others |
| KeezenGame.RewardTotal | rlcard_keezen_dqn/rlcard/games/keezen/game.py:239-274 | the rewards add up to 2 with switching and to 1 without, and the mover always gets 1 |
| KeezenGame.AllowedMoves | rlcard_keezen_dqn/rlcard/games/keezen/game.py:131-157 | all card moves of the mover's hand; failing those, one THROW_CARDS of the whole hand if it is non-empty, else one DEAL by the dealer if the round is over and the game goes on, else nothing |
| KeezenDeal.Dist | rlcard_keezen_dqn/rlcard/games/keezen/player.py:17-22 | how many seats after p seat q sits |
| KeezenDeal.DealFrom | rlcard_keezen_dqn/rlcard/games/keezen/game.py:286-290 | round-robin dealing succeeds exactly when the stock holds the cards, and removes them from the top of the stock |
| KeezenDeal.DealFromSeat | rlcard_keezen_dqn/rlcard/games/keezen/game.py:286-290 | each seat keeps its hand and receives every fourth card from the top, starting at its distance from the first seat |
| KeezenDeal.DealFromConserves | rlcard_keezen_dqn/rlcard/games/keezen/game.py:286-290 | dealing keeps the multiset of all cards |
| KeezenDeal.DealCards | rlcard_keezen_dqn/rlcard/games/keezen/game.py:283-290 | a deal succeeds exactly when the stock holds the round's number of cards for four seats, and shrinks the stock by that many |
| KeezenDeal.DealCardsShares | rlcard_keezen_dqn/rlcard/games/keezen/game.py:283-290 | every seat receives exactly the round's number of cards on top of its hand, the seat after the dealer gets the top card, and no card is lost |
| KeezenStep.InitGame | rlcard_keezen_dqn/rlcard/games/keezen/game.py:29-48 | the initial board, each seat on its own colour, dealer player_start with the next seat to move, counters zero, all 52 cards present and five dealt to every seat; an unknown game type fails |
| KeezenStep.DealStep | rlcard_keezen_dqn/rlcard/games/keezen/game.py:162-172 | a deal before the round is over fails; otherwise the round number goes up, the dealer rotates, and board, colours, mover and move number stay |
| KeezenStep.Restock | rlcard_keezen_dqn/rlcard/games/keezen/game.py:166-170 | an empty stock is refilled with every card; the dealer passes on |
| KeezenStep.DealStepCards | rlcard_keezen_dqn/rlcard/games/keezen/game.py:162-172 | a deal keeps every card, gives every seat the new round's number of cards, and draws them from the stock, which is refilled first when it was empty |
| KeezenStep.DealStepOk | rlcard_keezen_dqn/rlcard/games/keezen/game.py:162-172 | at the end of a round a deal succeeds exactly when the stock, refilled if empty, holds the new round's cards |
| KeezenStep.PlayStep | rlcard_keezen_dqn/rlcard/games/keezen/game.py:184-197 | the cards are played, each marble move and then its hits are applied, the move number goes up by one; only the mover's colour can change, to the team mate's, exactly when switching is on, the own colour is finished, the team mate's is not, and the mover still plays the own colour |
| KeezenStep.Transition | rlcard_keezen_dqn/rlcard/games/keezen/game.py:159-197 | no move changes nothing, a DEAL deals, any other move is played; the mover is still the one who moved |
| KeezenStep.Step | rlcard_keezen_dqn/rlcard/games/keezen/game.py:159-217 | game over is asked of the state after the move with the mover who moved; rewards are its vector when over and all zero otherwise; the turn passes to the seat after the dealer after a DEAL, and otherwise to the seat after the mover |
| KeezenStep.StockSchedule | rlcard_keezen_dqn/rlcard/games/keezen/game.py:166-172 | in a running game the stock is empty exactly in the last round of a schedule cycle, and otherwise it holds enough cards for the next round |
| KeezenStep.InitDealt | rlcard_keezen_dqn/rlcard/games/keezen/game.py:29-48 | a new game satisfies the running-game bookkeeping, its board included |
| KeezenStep.DealKeepsDealt | rlcard_keezen_dqn/rlcard/games/keezen/game.py:162-172 | a deal at the end of a round of a running game never fails and keeps the bookkeeping |
| KeezenStep.AllowedPlayable | rlcard_keezen_dqn/rlcard/games/keezen/game.py:131-157 | every allowed move other than DEAL is the mover's, and plays one card of the hand or the whole hand |
| KeezenStep.PlayKeepsCards | rlcard_keezen_dqn/rlcard/games/keezen/card.py:50-56 | playing one card of the hand, or the whole hand, succeeds, loses no card and leaves the stock alone |
| KeezenStep.PlayKeepsColours | rlcard_keezen_dqn/rlcard/games/keezen/game.py:191-196 | after the colour switch every seat still plays its own colour or its team mate's |
| KeezenStep.PlayKeepsDealt | rlcard_keezen_dqn/rlcard/games/keezen/game.py:184-197 | every allowed move other than DEAL can be played, loses no card, and keeps the bookkeeping and the board invariant |
| KeezenStep.StepKeepsDealt | rlcard_keezen_dqn/rlcard/games/keezen/game.py:159-217 | a step with an allowed move, or with none, never fails and keeps the running-game bookkeeping |
| KeezenActions.PathRoundTrip | rlcard_keezen_dqn/rlcard/games/keezen/board.py:223-238 | every place of a colour's path holds a field, and looking that field up gives the place back, so no field is visited twice |
| KeezenActions.PathIndexInverse | rlcard_keezen_dqn/rlcard/games/keezen/board.py:223-238 | a field found on the path is the field at that place |
| KeezenActions.OnPath | rlcard_keezen_dqn/rlcard/games/keezen/board.py:223-238 | a colour's path holds exactly its own block's fields and the track fields of the other blocks |
| KeezenActions.PathShape | rlcard_keezen_dqn/rlcard/games/keezen/board.py:223-238 | the path starts with the colour's wait fields, continues from its start field along the board's next-field links, and ends on its last home field |
| KeezenActions.Slots | rlcard_keezen_dqn/rlcard/games/keezen/move.py:121-140 | a colour's four path places exist exactly when all four marbles are on its path |
| KeezenActions.MarblePosition | rlcard_keezen_dqn/rlcard/games/keezen/move.py:121-140 | the position rank is defined exactly when all four marbles of the colour are on its path, and lies in 0..3 |
| KeezenActions.PositionMeaning | rlcard_keezen_dqn/rlcard/games/keezen/move.py:121-140 | the rank is the number of same-colour marbles strictly further along the path; rank 0 means every other marble of the colour is behind |
| KeezenActions.PositionOrder | rlcard_keezen_dqn/rlcard/games/keezen/move.py:121-140 | a marble further along gets a smaller rank |
| KeezenActions.PositionsDistinct | rlcard_keezen_dqn/rlcard/games/keezen/move.py:121-140 | the four marbles of a colour get four different ranks |
| KeezenActions.DecodeEncode | rlcard_keezen_dqn/rlcard/games/keezen/move.py:84-118 | every id within its digit widths reads back as the code it was written from |
| KeezenActions.EncodeDecode | rlcard_keezen_dqn/rlcard/games/keezen/move.py:84-118 | every string that reads as a code is exactly that code's id |
| KeezenActions.RawAction | rlcard_keezen_dqn/rlcard/games/keezen/move.py:84-118 | "TC" for THROW_CARDS and "DL" for DEAL; otherwise the code has the move's kind, the first card's value and the first marble's rank; none where the source raises |
| KeezenActions.TailMeaning | rlcard_keezen_dqn/rlcard/games/keezen/move.py:96-118 | a two-marble SPLIT adds the first marble's steps, then "P" for a second marble of the same colour, "T" for the team mate's colour and nothing otherwise; a SWITCH adds "T" for the team mate's colour, "A" for the next seat's and "B" otherwise; one-marble moves add nothing |
| KeezenActions.ActionIdDecodes | rlcard_keezen_dqn/rlcard/games/keezen/move.py:84-118 | every id the game writes reads back as the move's code |
| MejnGame.IsOver | rlcard_keezen_dqn/rlcard/games/mejn/game.py:143-158 | over exactly when all four marbles of the mover are home; the mover gets 1 and everyone else 0 |
| MejnGame.OneWinner | rlcard_keezen_dqn/rlcard/games/mejn/game.py:143-158 | the rewards of a finished game add up to one |
| MejnGame.InitGame | rlcard_keezen_dqn/rlcard/games/mejn/game.py:23-32 | every marble is on its own wait field, seat 0 moves with the given throw, and the game is not over |
| MejnGame.RunOf | rlcard_keezen_dqn/rlcard/games/mejn/game.py:100-106 | a RUN exists exactly when the marble has a full path of the die's count; it ends that many places further along the marble's route, on the path's end, with the hit there |
| MejnGame.AllowedMoves | rlcard_keezen_dqn/rlcard/games/mejn/game.py:85-111 | all moves are the mover's; the NONE move is offered exactly when no marble can move and the game goes on, and then alone; there is no move at all exactly when no marble can move and the game is over |
| MejnGame.AllowedComplete | rlcard_keezen_dqn/rlcard/games/mejn/game.py:89-106 | every START and every RUN of a marble of the mover is offered |
| MejnGame.AllowedSound | rlcard_keezen_dqn/rlcard/games/mejn/game.py:89-110 | a START is offered only on a six, for a waiting marble of the mover with an empty start field; a RUN only as that marble's run; NONE only as the mover's NONE |
| MejnGame.Step | rlcard_keezen_dqn/rlcard/games/mejn/game.py:123-141 | the marble moves and their hits are applied and the move number goes up by one (nothing changes without a move); done exactly when the mover has all marbles home, with the mover's reward 1 of a total 1; the turn passes only when not done and the die was not a six |
| MejnGame.StepKeepsBoard | rlcard_keezen_dqn/rlcard/games/mejn/game.py:123-132 | every allowed move keeps the board well formed |
| MejnGame.StartKeepsBoard | rlcard_keezen_dqn/rlcard/games/mejn/game.py:93-99 | a START puts the marble on its empty start field and moves no other marble |
| MejnGame.RunKeepsBoard | rlcard_keezen_dqn/rlcard/games/mejn/game.py:100-106 | a RUN puts the marble the die's count further along its route, sends a hit marble to a free wait field of its colour, and moves no one else |
| MejnActions.DecodeEncode | rlcard_keezen_dqn/rlcard/games/mejn/move.py:25-31 | every id within its digit widths reads back as its code: "NO", "STP" with the marble, "RU" with two-digit steps, "P" and the marble |
| MejnActions.EncodeDecode | rlcard_keezen_dqn/rlcard/games/mejn/move.py:25-31 | every string that reads as a code is exactly that code's id |
| MejnActions.EncodeInjective | rlcard_keezen_dqn/rlcard/games/mejn/move.py:25-31 | two codes with the same id are the same code |
| MejnActions.TableListsIds | rlcard_keezen_dqn/rlcard/games/mejn/game.py:193-195 | position k of the 29-entry table is the id of the k-th code |
| MejnActions.IdInTable | rlcard_keezen_dqn/rlcard/games/mejn/game.py:193-195 | the id of every move a game can make (steps 1..6, marble 0..3, START or NONE) is in the table |
| MejnActions.TableEntryDecodes | rlcard_keezen_dqn/rlcard/games/mejn/game.py:193-195 | every table entry reads back as the code at its position |
| MejnActions.RawAction | rlcard_keezen_dqn/rlcard/games/mejn/move.py:25-31 | NONE gets the code "NO"; START gets "STP" with the first moved marble's index; RUN gets "RU" with the steps and that marble's index; an id fails exactly for a START or RUN without a marble move |
| MejnActions.AllowedIdDecodes | rlcard_keezen_dqn/rlcard/games/mejn/game.py:85-111 | an allowed move's id reads back as a code that names the move: the NONE move, the START of that marble of the mover, or its RUN by the die's number of steps |
| MejnActions.AllowedIdsListed | rlcard_keezen_dqn/rlcard/games/mejn/move.py:20 | every allowed move has an id, and it is in the table |
| MejnActions.AllowedIdsDistinct | rlcard_keezen_dqn/rlcard/games/mejn/game.py:85-111 | no two allowed moves share an id |
| CarryFinding.OnlySplit | rlcard_keezen_dqn/rlcard/games/keezen/cardop.py:109-189 | on the finding's boards green has no split of its own, and the carry-over with blue's first marble is the only SPLIT of a seven |
| CarryFinding.AsWrittenSendsBack | rlcard_keezen_dqn/rlcard/games/keezen/cardop.py:186 | the as-written carry-over lets blue's marble hit green's marble on 91, where it no longer stands; played, green's fourth marble ends on wait field 20 and home field 3 is empty |
| CarryFinding.CorrectedStaysHome | rlcard_keezen_dqn/rlcard/games/keezen/cardop.py:178-188 | the corrected carry-over carries no hit; played, green's fourth marble stays on home field 3 and blue's marble stands on 91 |
| CarryFinding.CarryOverFinding | rlcard_keezen_dqn/rlcard/games/keezen/cardop.py:164-188 | on the finding's board with the seven of hearts, the only SPLIT is the carry-over with blue's first marble; as written it leaves green's fourth marble on wait field 20, corrected on home field 3 |

## Findings

| source | as written | input that shows it | evidently intended | confidence | as-written member | corrected member |
|---|---|---|---|---|---|---|
| rlcard_keezen_dqn/rlcard/games/keezen/cardop.py:186 | the carry-over of a seven takes the team mate's hits on the board before the split, where the player's last marble still stands on its old field | green (seat 0) has marbles on 0, 1 and 2 and the fourth on 91; blue has one marble on 86; all others wait. Green plays a seven: the fourth marble goes 91, 4, 3 home and blue's marble 87..91; blue's marble "hits" the green marble on 91, which ends on wait field 20 | hits on the board the first leg leaves, as the other two-marble splits do with `c_state` (cardop.py:141 and 161), so the green marble stays home | not executed | CarryFinding.AsWrittenSendsBack (on CardOps.CarryForAsWritten) | CardOps.CarryFor, with KeezenBoard.CarryStaysHome and CarryFinding.CorrectedStaysHome |

`CardOps.CarryOver`, and through it `CardOps.SplitMoves`, `KeezenGame.AllowedMoves` and the Keezen step, uses the corrected `CarryFor`. `CardOps.CarryForVsAsWritten` shows the two versions differ only in the hits of the team mate's leg. The lines under "## Left out" that start with these members record the difference.

## Left out

- Console rendering (`render` in both games) is output only.
- The rule-based agents, the reinforcement-learning adapters and environments, and the training scripts are left out. They use the engine; they are not part of it.
- The numpy state encoders (`get_board_state_as_matrix`, `get_card_state_as_matrix`, `FIELDID_STATEINDEX_MAP`) and `get_state_for_player` are left out. They are tensor plumbing.
- The Keezen `GameActions` string tables and mejn's `ALL_ACTIONS_BW_53` are left out. They are literal data; only the 29-entry mejn table is modelled, with membership of generated ids.
- The older Keezen encoding `Move._get_raw_action`, which names marbles by id, is left out. The adapter uses `get_raw_action`.
- `random.shuffle` and `throw_dice` are not modelled as randomness. They are inputs: shuffle keys and a die value.
- `GameState.__copy__` and the shared hand lists are left out; the model uses value semantics. The `last_move` field of the recorded copies is left out too.
- `step_back` is modelled as a plain stack of recorded states. The adapter's use of it is left out.
- `KeezenActions.PathAt` models the literal `PATH_FOR_LOCATION` table as a formula over blocks. The table itself is not reproduced. `PathShape`, `PathRoundTrip` and `OnPath` state what its rows contain.
- BoardState.FieldOf: on a board where one marble stands on two fields, it picks the lowest field; the source returns the first it finds in the dict. The two agree on every board where a marble stands at most once, which every game keeps.
- BoardState.Reset: when a colour's pen is full, the marble stays where it is; the source would store it under the key `None`. `FreeWaitFieldExists` shows this never happens on a well-formed board. Which free wait field a returning marble takes is stated one marble at a time, by `ResetMarbles` and `ResetStep`, not for the whole sweep.
- Moves.HitMoves: a hit with no free wait field has no destination; the source builds the move with `None`. `HitAlwaysLands` shows this never happens on a well-formed board.
- KeezenPaths.PathForMarble: a marble that stands on no field has the empty path; the source raises reading the neighbours of `None`. On a well-formed board every marble stands on a field.
- MejnPaths.PathForMarble: a marble that stands on no field has the empty path; the source raises the same way. On a well-formed board every marble stands on a field.
- MejnGame.AllowedMoves: it inherits the quiet case of `MejnPaths.PathForMarble`. A marble on no field is also taken as not in its pen (`CanStart` is false), where the source raises reading the type of `None`.
- CardOps.IsSwitchable: a marble that is off the board counts as not switchable; the source would raise reading its field.
- CardOps.BlockedByOwnMarble: a marble that is off the board counts as not blocked; the source would raise reading its field.
- KeezenActions.MarblePosition: none when a marble of the colour is off its path; the source raises in `path.index`.
- BoardState.MarblesOnKind: a marble that stands on no field is left out of the result; the source raises reading the type of `None` (keezen board.py:111-117, mejn board.py:110-116). `BoardState.OnKindOnWellFormed` shows the case cannot arise on a well-formed board. `MarblesAtHome`, `MarblesAtWait` and `IsColorFinished` are built on it and inherit the quiet answer.
- BoardState.WaitingMarble: it inherits the quiet answer of `MarblesOnKind`, so a marble on no field is never the waiting marble; the source raises (board.py:123-127).
- CardOps.StartMoves: it inherits the quiet answer of `WaitingMarble`.
- CardOps.CarryLead: a marble on no field counts as not at home, where the source raises in `get_marbles_at_home`.
- KeezenGame.IsOver: it also inherits the quiet answer of `IsColorFinished`.
- MejnGame.IsOver: it inherits the quiet answer of `IsColorFinished`; the source raises (mejn board.py:118-120).
- CardOps.CarryOver: the team mate's leg carries the corrected hits of the Findings row, taken on the board the first leg leaves. cardop.py:186 takes them on the board before the split. On the finding's board the program sends the finished marble back to wait field 20; the model keeps it home. `CardOps.CarryForAsWritten` is the program's version.
- CardOps.CarryOverShape: its hits clause states the corrected hits of the Findings row, not those of cardop.py:186.
- CardOps.SplitMoves: it offers the corrected carry-over of `CardOps.CarryOver`, not the one of cardop.py:186.
- KeezenGame.AllowedMoves: through `CardOps.SplitMoves` its carry-over SPLIT has the corrected hits, not those of cardop.py:186. So the Keezen step plays the corrected move.
- KeezenGame.IsOver: the team mate is fixed to the adapter's teams (`PartnerSeat`), not read from a `Team` object.
- KeezenDeal.DealCards: its own contract states only success and the stock's length; `DealCardsShares` states what each seat receives.
- KeezenStep.DealStep: its own contract states only the failure before the end of a round; `DealStepOk` states exactly when it succeeds.
- The card operations use the default passing flags: forwards off, backwards on. The path functions take the flags as a parameter.
- Players are seats 0..3, each with the colour of its seat. Player names and locations are left out.
- The Keezen board invariant (`KeezenBoard.GoodBoard`) is for Keezen only; mejn has its own board lemma (`MejnGame.StepKeepsBoard`).
