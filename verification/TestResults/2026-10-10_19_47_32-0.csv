TestResult.DisplayName,TestResult.Outcome,TestResult.Duration,TestResult.ResourceCount,RandomSeed
KeezenBoard.RunOpKeepsGood (correctness),Passed,00:00:00.9315831,1743540,0
KeezenBoard.BlockedKeepsGood (correctness),Passed,00:00:00.8801690,1633706,0
CarryFinding.CarryOverFinding (correctness),Passed,00:00:00.6606467,1187892,0
CardOps.SplitMovesSpec (correctness),Passed,00:00:00.6530377,1277147,0
KeezenBoard.OpKeepsGood (correctness),Passed,00:00:00.5953243,1157056,0
KeezenStep.StepKeepsDealt (well-formedness),Passed,00:00:00.5324382,585555,0
KeezenGame.AllowedMoves (well-formedness),Passed,00:00:00.5295110,1032836,0
CardOps.CarryOver (well-formedness),Passed,00:00:00.5188308,940319,0
KeezenStep.StepKeepsDealt (correctness),Passed,00:00:00.5117068,687663,0
CardOps.StartMoves (well-formedness),Passed,00:00:00.4814304,657917,0
KeezenBoard.CarryStaysHome (correctness),Passed,00:00:00.4488161,910727,0
KeezenStep.PlayKeepsDealt (correctness),Passed,00:00:00.4470942,769226,0
CarryFinding.CarryOverFinding (well-formedness),Passed,00:00:00.4283959,401294,0
KeezenPaths.PathForColor (well-formedness),Passed,00:00:00.4236021,195134,0
KeezenGame.HandMoves (well-formedness),Passed,00:00:00.4216025,515046,0
KeezenGame.OpMoves (well-formedness),Passed,00:00:00.4153321,377630,0
MejnGame.Step (well-formedness),Passed,00:00:00.4091107,749180,0
KeezenBoard.SwitchKeepsGood (correctness),Passed,00:00:00.4041239,588638,0
KeezenPaths.PathForMarble (well-formedness),Passed,00:00:00.4040774,218986,0
Moves.MarbleMoveKeepsBoard (correctness),Passed,00:00:00.3981485,534700,0
KeezenGame.HandMovesCollected (correctness),Passed,00:00:00.3899138,667121,0
KeezenGame.CardMovesCollected (correctness),Passed,00:00:00.3840720,509229,0
KeezenBoard.AllowedKeepsBoard (correctness),Passed,00:00:00.3730660,628022,0
KeezenStep.PlayKeepsDealt (well-formedness),Passed,00:00:00.3704594,534526,0
KeezenStep.AllowedPlayable (correctness),Passed,00:00:00.3648003,570530,0
CarryFinding.Lead (correctness),Passed,00:00:00.3613696,698040,0
CarryFinding.LeadStops (correctness),Passed,00:00:00.3590263,848766,0
KeezenStep.AllowedPlayable (well-formedness),Passed,00:00:00.3584678,470471,0
KeezenStep.InitGame (well-formedness),Passed,00:00:00.3523318,402349,0
CardOps.SplitMovesSpec (well-formedness),Passed,00:00:00.3516318,742752,0
CarryFinding.NoMainSplit (correctness),Passed,00:00:00.3503925,798276,0
KeezenStep.Step (well-formedness),Passed,00:00:00.3382799,585814,0
KeezenBoard.AllowedKeepsBoard (well-formedness),Passed,00:00:00.3368377,460994,0
Moves.HitLands (correctness),Passed,00:00:00.3324178,575430,0
Seats.StandardTeamsPartner (correctness),Passed,00:00:00.3296026,605472,0
MejnGame.MovesFound (correctness),Passed,00:00:00.3253783,566531,0
CarryFinding.HomeStuck (correctness),Passed,00:00:00.3234011,535091,0
KeezenGame.RunMadeBy (correctness),Passed,00:00:00.3193318,296544,0
KeezenBoard.PairKeepsGood (correctness),Passed,00:00:00.3129876,578520,0
CardOps.SplitMovesShape (well-formedness),Passed,00:00:00.3123199,318347,0
CarryFinding.PartnerPath (correctness),Passed,00:00:00.3121535,691419,0
KeezenStep.PlayStep (well-formedness),Passed,00:00:00.3116415,555762,0
CardOps.SplitMoves (well-formedness),Passed,00:00:00.2915446,355489,0
KeezenGame.SplitMadeBy (correctness),Passed,00:00:00.2890852,465491,0
CarryFinding.NoOwnSplit (correctness),Passed,00:00:00.2890839,510099,0
KeezenPaths.KeezenChainRules (correctness),Passed,00:00:00.2886213,245463,0
KeezenGame.CardMoves (well-formedness),Passed,00:00:00.2838657,445551,0
MejnPaths.PathAlongRoute (well-formedness),Passed,00:00:00.2807107,125195,0
CardOps.SplitBlocked (well-formedness),Passed,00:00:00.2759661,361248,0
CarryFinding.HomeCount (correctness),Passed,00:00:00.2749486,600463,0
MejnPaths.RouteAt (correctness),Passed,00:00:00.2742123,588377,0
CardOps.SplitMovesShape (correctness),Passed,00:00:00.2731815,362676,0
KeezenPaths.HomePathLeaves (correctness),Passed,00:00:00.2711839,184900,0
KeezenGame.IsOver (well-formedness),Passed,00:00:00.2707354,544566,0
KeezenPaths.HomeOnlyAtEnd (correctness),Passed,00:00:00.2688969,415727,0
CarryFinding.CarryWithB0 (correctness),Passed,00:00:00.2686828,468744,0
CardOps.BlockerIsOther (well-formedness),Passed,00:00:00.2686106,156683,0
CardOps.RunMoves (well-formedness),Passed,00:00:00.2683215,477987,0
CardOps.SwitchExchanges (correctness),Passed,00:00:00.2671906,281573,0
MejnActions.AllowedIdDecodes (correctness),Passed,00:00:00.2614901,399048,0
KeezenPaths.FourBackFromStart (correctness),Passed,00:00:00.2606840,287644,0
CardOps.MainSplits (well-formedness),Passed,00:00:00.2564108,335661,0
CarryFinding.OnlySplit (correctness),Passed,00:00:00.2563185,427956,0
Rules.DeckFacts (correctness),Passed,00:00:00.2546328,83783,0
MejnPaths.MejnChainRules (correctness),Passed,00:00:00.2534242,137525,0
CardOps.SwitchCollected (correctness),Passed,00:00:00.2532107,264678,0
KeezenPaths.BackFromStartHops (well-formedness),Passed,00:00:00.2530039,80799,0
KeezenDeal.DealFromSeat (correctness),Passed,00:00:00.2517217,464320,0
CardOps.SplitBlockedLegs (correctness),Passed,00:00:00.2488750,363300,0
KeezenGame.HandMovesCollected (well-formedness),Passed,00:00:00.2480027,438197,0
CarryFinding.SceneBoxed (correctness),Passed,00:00:00.2470987,677186,0
KeezenPaths.FirstHop (correctness),Passed,00:00:00.2441946,152745,0
MejnGame.IsOver (well-formedness),Passed,00:00:00.2439799,565840,0
MejnActions.AllowedIdsDistinct (correctness),Passed,00:00:00.2438516,529216,0
CardOps.SplitSingle (well-formedness),Passed,00:00:00.2433448,262867,0
Rules.ValuePosOrder (correctness),Passed,00:00:00.2428827,114628,0
KeezenPaths.RingPathLeaves (correctness),Passed,00:00:00.2418349,147574,0
KeezenPaths.HomePathLeaves (well-formedness),Passed,00:00:00.2400587,128638,0
CardOps.SplitPairLegs (well-formedness),Passed,00:00:00.2400323,223373,0
MejnActions.AllowedIdsListed (correctness),Passed,00:00:00.2370086,474795,0
CardOps.PairAfter (well-formedness),Passed,00:00:00.2310052,255179,0
CardOps.CarryOverShape (correctness),Passed,00:00:00.2267499,279977,0
KeezenBoard.OpKeepsGood (well-formedness),Passed,00:00:00.2261622,364199,0
CardOps.CarryOverShape (well-formedness),Passed,00:00:00.2248382,244820,0
CardOps.SplitPair (well-formedness),Passed,00:00:00.2246756,221389,0
MejnGame.AllowedSound (correctness),Passed,00:00:00.2237900,245038,0
CardOps.MainCollected (well-formedness),Passed,00:00:00.2233724,303451,0
CardOps.MainCollected (correctness),Passed,00:00:00.2233496,318694,0
CarryFinding.CarryOnlyB0 (correctness),Passed,00:00:00.2206289,514239,0
KeezenBoard.SplitKeepsGood (correctness),Passed,00:00:00.2200391,387705,0
CarryFinding.AsWrittenSendsBack (correctness),Passed,00:00:00.2199052,345592,0
CarryFinding.CorrectedStaysHome (correctness),Passed,00:00:00.2191879,386136,0
MejnGame.MarbleChoices (well-formedness),Passed,00:00:00.2164244,290532,0
CarryFinding.AsWrittenSendsBack (well-formedness),Passed,00:00:00.2156094,290547,0
KeezenPaths.FirstHop (well-formedness),Passed,00:00:00.2151014,123838,0
CardOps.CarryFacts (correctness),Passed,00:00:00.2135416,358267,0
MejnPaths.HomeHop (correctness),Passed,00:00:00.2133665,462670,0
Rules.OpsByRank (correctness),Passed,00:00:00.2120293,125099,0
CardOps.SplitPairLegs (correctness),Passed,00:00:00.2069199,332874,0
CardOps.RunFor (well-formedness),Passed,00:00:00.2061664,230492,0
CardOps.BlockedByOwnMarble (well-formedness),Passed,00:00:00.2059969,194539,0
KeezenPaths.OwnerBlocksStart (correctness),Passed,00:00:00.2051654,303124,0
CardOps.PairOrBlocked (correctness),Passed,00:00:00.2050219,223917,0
MejnPaths.PathForColor (well-formedness),Passed,00:00:00.2047851,153796,0
CardOps.CarryForVsAsWritten (correctness),Passed,00:00:00.2039281,249095,0
KeezenActions.TailMeaning (correctness),Passed,00:00:00.2020873,370140,0
Cards.SmallMod (correctness),Passed,00:00:00.2011863,9532,0
BoardState.MarblesOnKindHead (correctness),Passed,00:00:00.2003443,414803,0
KeezenPaths.RingChainLeaves (correctness),Passed,00:00:00.1994500,141861,0
CardOps.AfterMoveIsPlay (correctness),Passed,00:00:00.1983648,338736,0
CardOps.ChooseShape (well-formedness),Passed,00:00:00.1970582,247479,0
CardOps.CarryCollected (well-formedness),Passed,00:00:00.1965670,227737,0
KeezenStep.DealStepCards (correctness),Passed,00:00:00.1965245,572335,0
CardOps.CarryFor (well-formedness),Passed,00:00:00.1959826,255021,0
KeezenBoard.CardMoveKeepsGood (correctness),Passed,00:00:00.1950378,419018,0
KeezenPaths.PathOffHome (well-formedness),Passed,00:00:00.1940095,126283,0
CardOps.CarryForVsAsWritten (well-formedness),Passed,00:00:00.1936333,227640,0
CarryFinding.OnlySplit (well-formedness),Passed,00:00:00.1934166,342966,0
CardOps.CarryCollected (correctness),Passed,00:00:00.1931667,293400,0
KeezenBoard.ChoiceKeepsGood (correctness),Passed,00:00:00.1922704,296491,0
CardOps.BlockerIsOther (correctness),Passed,00:00:00.1917895,277007,0
MejnGame.MoveKeepsBoard (correctness),Passed,00:00:00.1894284,323704,0
CardOps.HomeMobility (well-formedness),Passed,00:00:00.1893479,221439,0
CardOps.ChooseShape (correctness),Passed,00:00:00.1871852,296418,0
KeezenBoard.CarryOverKeepsGood (correctness),Passed,00:00:00.1871335,320636,0
MejnPaths.PathForMarble (well-formedness),Passed,00:00:00.1864429,295339,0
MejnGame.AllowedMoves (well-formedness),Passed,00:00:00.1859995,258351,0
MejnPaths.HomeRunPaths (correctness),Passed,00:00:00.1852815,158390,0
CardOps.ChosenShape (correctness),Passed,00:00:00.1843668,248668,0
Moves.PutKeepsBoard (correctness),Passed,00:00:00.1840224,346238,0
MejnGame.AllowedChoices (correctness),Passed,00:00:00.1838788,235526,0
KeezenPaths.RingChain (correctness),Passed,00:00:00.1835683,187484,0
MejnPaths.MejnChainRules (well-formedness),Passed,00:00:00.1834548,102919,0
MejnGame.RunKeepsBoard (correctness),Passed,00:00:00.1827679,296218,0
KeezenPaths.RingPathLeaves (well-formedness),Passed,00:00:00.1826173,128372,0
MejnPaths.HomeRunPaths (well-formedness),Passed,00:00:00.1823337,127281,0
KeezenPaths.BackHopOnTrack (correctness),Passed,00:00:00.1822374,195526,0
Moves.HitAlwaysLands (well-formedness),Passed,00:00:00.1821941,65912,0
CardOps.Choose (well-formedness),Passed,00:00:00.1807354,233618,0
KeezenStep.DealStep (well-formedness),Passed,00:00:00.1801203,212740,0
KeezenStep.InitCardsDealt (correctness),Passed,00:00:00.1797572,275860,0
KeezenPaths.RingChainLeaves (well-formedness),Passed,00:00:00.1787530,103637,0
KeezenPaths.WaitIsStuck (correctness),Passed,00:00:00.1770045,195254,0
CardOps.PairOrBlocked (well-formedness),Passed,00:00:00.1761808,223383,0
KeezenBoard.PathLegKeepsGood (correctness),Passed,00:00:00.1755842,261210,0
MejnGame.ChoiceKinds (correctness),Passed,00:00:00.1735801,228874,0
KeezenPaths.HopFacts (correctness),Passed,00:00:00.1733811,131991,0
CarryFinding.NoBlockedSplit (correctness),Passed,00:00:00.1731579,276392,0
KeezenActions.DecodeAt (correctness),Passed,00:00:00.1727534,523775,0
MejnActions.EncodeDecode (correctness),Passed,00:00:00.1720283,286825,0
KeezenPaths.PathOnBoard (well-formedness),Passed,00:00:00.1714238,116991,0
CarryFinding.CarryOnlyB0 (well-formedness),Passed,00:00:00.1712914,268435,0
CarryFinding.CorrectedStaysHome (well-formedness),Passed,00:00:00.1711459,289731,0
CarryFinding.SceneKinds (correctness),Passed,00:00:00.1690348,416574,0
KeezenStep.DealKeepsCards (correctness),Passed,00:00:00.1688234,291629,0
MejnGame.OneWinner (correctness),Passed,00:00:00.1685246,338752,0
MejnPaths.MejnHopRules (well-formedness),Passed,00:00:00.1682248,64933,0
KeezenDeal.ReceivedFirst (well-formedness),Passed,00:00:00.1677427,25954,0
Cards.FlattenUpdate (correctness),Passed,00:00:00.1671238,483742,0
KeezenStep.Transition (well-formedness),Passed,00:00:00.1653432,262156,0
MejnGame.MovesSound (correctness),Passed,00:00:00.1647599,248981,0
MejnGame.RunOf (well-formedness),Passed,00:00:00.1646897,253898,0
KeezenPaths.PathLeaves (well-formedness),Passed,00:00:00.1645705,122474,0
CarryFinding.CarryWithB0 (well-formedness),Passed,00:00:00.1628269,286788,0
Moves.HitMoves (well-formedness),Passed,00:00:00.1627639,65632,0
CardOps.StartHit (correctness),Passed,00:00:00.1626676,175838,0
KeezenBoard.PathLegKeepsGood (well-formedness),Passed,00:00:00.1622531,204805,0
CarryFinding.NoMainSplit (well-formedness),Passed,00:00:00.1621939,282934,0
CarryFinding.PenStuck (correctness),Passed,00:00:00.1613251,301626,0
MejnGame.AllowedComplete (well-formedness),Passed,00:00:00.1602016,201175,0
MejnActions.TableFront (correctness),Passed,00:00:00.1597020,551143,0
KeezenStep.DealKeepsDealt (correctness),Passed,00:00:00.1591141,318419,0
MejnGame.AllowedComplete (correctness),Passed,00:00:00.1589775,297574,0
KeezenPaths.ForwardPathHomeIsOneWay (correctness),Passed,00:00:00.1583669,142531,0
BoardState.ResetMarbles (well-formedness),Passed,00:00:00.1582127,214575,0
CardOps.SplitBlockedLegs (well-formedness),Passed,00:00:00.1580409,237745,0
MejnGame.MovesComplete (correctness),Passed,00:00:00.1579147,225480,0
KeezenBoard.RunKeepsGood (well-formedness),Passed,00:00:00.1572834,197729,0
CardOps.ChosenShape (well-formedness),Passed,00:00:00.1567451,250231,0
KeezenPaths.HomeIsOneWay (well-formedness),Passed,00:00:00.1566590,102540,0
Rules.ValuePos (well-formedness),Passed,00:00:00.1564851,55068,0
KeezenPaths.BackFromStart (correctness),Passed,00:00:00.1560880,123959,0
KeezenBoard.InitialBoardGood (correctness),Passed,00:00:00.1545357,73096,0
KeezenBoard.HomesOwned (well-formedness),Passed,00:00:00.1542139,33442,0
CardOps.CarryForAsWritten (well-formedness),Passed,00:00:00.1538841,213714,0
BoardState.Put (well-formedness),Passed,00:00:00.1536981,126458,0
MejnActions.RunRoundTrip (correctness),Passed,00:00:00.1534149,317947,0
MejnPaths.TrackWalks (correctness),Passed,00:00:00.1515236,150845,0
CardOps.AfterMove (well-formedness),Passed,00:00:00.1513779,156696,0
MejnPaths.HomeWalks (correctness),Passed,00:00:00.1512641,132462,0
KeezenActions.ActionIdDecodes (correctness),Passed,00:00:00.1510377,296217,0
MejnGame.ChoiceKinds (well-formedness),Passed,00:00:00.1503274,177540,0
KeezenActions.PositionMeaning (correctness),Passed,00:00:00.1494334,274288,0
KeezenPaths.HopAt (correctness),Passed,00:00:00.1493513,107337,0
KeezenBoard.SingleKeepsGood (well-formedness),Passed,00:00:00.1492407,201781,0
KeezenDeal.DealFromSeat (well-formedness),Passed,00:00:00.1473562,56378,0
MejnPaths.TrackPaths (well-formedness),Passed,00:00:00.1469534,139741,0
KeezenPaths.HomeIsOneWay (correctness),Passed,00:00:00.1467838,123057,0
KeezenStep.DealStepOk (correctness),Passed,00:00:00.1452795,276229,0
BoardState.WellFormed (well-formedness),Passed,00:00:00.1451489,50682,0
Moves.HitLands (well-formedness),Passed,00:00:00.1429734,103821,0
KeezenPaths.ForwardHomeHop (correctness),Passed,00:00:00.1428837,127501,0
KeezenBoard.LegsKeepGood (well-formedness),Passed,00:00:00.1419179,205795,0
KeezenActions.ActionIdDecodes (well-formedness),Passed,00:00:00.1418380,165011,0
Paths.WalkConcat (correctness),Passed,00:00:00.1412358,282178,0
BoardState.FinishedIffAllHome (correctness),Passed,00:00:00.1411454,245765,0
KeezenPaths.ForwardAtOwnJunction (correctness),Passed,00:00:00.1411268,343390,0
MejnPaths.PathAlongRoute (correctness),Passed,00:00:00.1410834,143529,0
KeezenBoard.PathEnd (well-formedness),Passed,00:00:00.1406178,142378,0
KeezenGame.RewardTotal (correctness),Passed,00:00:00.1404816,284883,0
KeezenPaths.HopRules (well-formedness),Passed,00:00:00.1404408,75992,0
Layout.WaitListExact (correctness),Passed,00:00:00.1403951,550985,0
KeezenPaths.ChainOnBoard (well-formedness),Passed,00:00:00.1403297,96817,0
KeezenPaths.WaitIsStuck (well-formedness),Passed,00:00:00.1402477,117948,0
KeezenStep.DealStepCards (well-formedness),Passed,00:00:00.1401265,128452,0
Rules.CardOpsOf (well-formedness),Passed,00:00:00.1392021,183500,0
KeezenBoard.CarryStaysHome (well-formedness),Passed,00:00:00.1391331,212665,0
MejnPaths.TrackWalks (well-formedness),Passed,00:00:00.1390588,106142,0
KeezenBoard.LegsKeepGood (correctness),Passed,00:00:00.1388427,282605,0
Cards.PlayConserves (correctness),Passed,00:00:00.1385648,464200,0
KeezenBoard.BlockedKeepsGood (well-formedness),Passed,00:00:00.1384054,225362,0
KeezenPaths.BackFromJunction (well-formedness),Passed,00:00:00.1379242,80799,0
Paths.ChainIsWalk (correctness),Passed,00:00:00.1375009,328734,0
KeezenBoard.LegKeepsGood (correctness),Passed,00:00:00.1372825,238128,0
KeezenBoard.ChoiceKeepsGood (well-formedness),Passed,00:00:00.1371702,244042,0
KeezenPaths.HopRules (correctness),Passed,00:00:00.1368408,80441,0
KeezenPaths.ForwardPathHomeIsOneWay (well-formedness),Passed,00:00:00.1364660,131929,0
Common.Abs (well-formedness),Passed,00:00:00.1362386,6711,0
CardOps.SwitchMovesSpec (correctness),Passed,00:00:00.1362200,205854,0
KeezenPaths.PathLeaves (correctness),Passed,00:00:00.1359071,145819,0
MejnPaths.RouteHopJunction (correctness),Passed,00:00:00.1356301,298356,0
MejnPaths.HomeWalks (well-formedness),Passed,00:00:00.1344351,103840,0
KeezenPaths.KeezenChainRules (well-formedness),Passed,00:00:00.1341159,120694,0
Rules.DeckFacts (well-formedness),Passed,00:00:00.1339172,65488,0
KeezenStep.InitColours (correctness),Passed,00:00:00.1335004,278199,0
BoardState.FullPenHasNoFreeField (correctness),Passed,00:00:00.1328610,236682,0
MejnGame.RunKeepsBoard (well-formedness),Passed,00:00:00.1323009,237892,0
MejnGame.ChoiceFacts (correctness),Passed,00:00:00.1316334,204919,0
MejnActions.AllowedIdsListed (well-formedness),Passed,00:00:00.1314366,240941,0
CardOps.CarryFacts (well-formedness),Passed,00:00:00.1301032,238371,0
MejnPaths.TrackHop (correctness),Passed,00:00:00.1299056,220930,0
Rules.ScheduleUsesDeck (correctness),Passed,00:00:00.1296291,160417,0
KeezenStep.InitDealt (correctness),Passed,00:00:00.1295490,212192,0
KeezenPaths.WalkFourBack (well-formedness),Passed,00:00:00.1276455,100836,0
CardOps.StartHit (well-formedness),Passed,00:00:00.1271718,144970,0
CarryFinding.SceneField (well-formedness),Passed,00:00:00.1270183,242143,0
MejnGame.AllowedSound (well-formedness),Passed,00:00:00.1269711,211229,0
KeezenActions.Slots (well-formedness),Passed,00:00:00.1267614,185437,0
BoardState.WaitingMarble (well-formedness),Passed,00:00:00.1265448,237137,0
MejnPaths.TrackPaths (correctness),Passed,00:00:00.1261119,129150,0
CarryFinding.SceneInjective (correctness),Passed,00:00:00.1259517,283962,0
KeezenPaths.ForwardHomeHop (well-formedness),Passed,00:00:00.1256819,102104,0
Rules.ValuePosOrder (well-formedness),Passed,00:00:00.1243263,23080,0
KeezenPaths.ChainOnBoard (correctness),Passed,00:00:00.1242765,134261,0
BoardState.InitialBoardFacts (correctness),Passed,00:00:00.1237000,309160,0
KeezenPaths.HopAt (well-formedness),Passed,00:00:00.1235942,96574,0
Common.PaddedDigits (well-formedness),Passed,00:00:00.1232847,24677,0
MejnGame.StepKeepsBoard (correctness),Passed,00:00:00.1230220,249863,0
BoardState.PutOnFreeWaitField (correctness),Passed,00:00:00.1229373,204957,0
KeezenBoard.RunKeepsGood (correctness),Passed,00:00:00.1225779,234071,0
CardOps.SwitchMovesSpec (well-formedness),Passed,00:00:00.1223905,187775,0
KeezenBoard.SingleKeepsGood (correctness),Passed,00:00:00.1218960,232529,0
Paths.MejnAllowed (well-formedness),Passed,00:00:00.1214336,45187,0
Rules.DeckDistinct (well-formedness),Passed,00:00:00.1213983,56685,0
CardOps.ChoicesFor (well-formedness),Passed,00:00:00.1209713,126250,0
CarryFinding.HomeFull (well-formedness),Passed,00:00:00.1199843,166634,0
KeezenPaths.PathOffHome (correctness),Passed,00:00:00.1191561,138447,0
KeezenPaths.BackwardOntoOwnStart (correctness),Passed,00:00:00.1185499,117099,0
CardOps.SwitchMoves (well-formedness),Passed,00:00:00.1184609,190199,0
CarryFinding.GreenHops (correctness),Passed,00:00:00.1181180,280946,0
MejnPaths.HomeEnds (correctness),Passed,00:00:00.1177630,160613,0
MejnPaths.HomeEnds (well-formedness),Passed,00:00:00.1169069,81420,0
CarryFinding.LeadLegPlayed (correctness),Passed,00:00:00.1163465,150051,0
KeezenBoard.StartKeepsGood (correctness),Passed,00:00:00.1163059,199257,0
Rules.DeckIndex (well-formedness),Passed,00:00:00.1161456,34765,0
KeezenBoard.PathEnd (correctness),Passed,00:00:00.1160980,153495,0
KeezenPaths.FourBackFromStart (well-formedness),Passed,00:00:00.1144067,121232,0
Cards.DealConserves (correctness),Passed,00:00:00.1143935,241043,0
CarryFinding.HomeFull (correctness),Passed,00:00:00.1139341,213641,0
CarryFinding.PlayHit (correctness),Passed,00:00:00.1124064,146665,0
KeezenPaths.WalkFourBack (correctness),Passed,00:00:00.1116253,155107,0
BoardState.WaitHeadIsLowest (correctness),Passed,00:00:00.1115066,213850,0
Cards.ShuffleKeys (well-formedness),Passed,00:00:00.1106244,259854,0
KeezenPaths.PrevOffHome (correctness),Passed,00:00:00.1103976,239470,0
KeezenBoard.LastNotWait (correctness),Passed,00:00:00.1087604,168291,0
CarryFinding.NoBlockedSplit (well-formedness),Passed,00:00:00.1085137,233006,0
CarryFinding.NoOwnSplit (well-formedness),Passed,00:00:00.1084490,254502,0
KeezenActions.TailMeaning (well-formedness),Passed,00:00:00.1076198,181431,0
KeezenBoard.SwitchOpKeepsGood (correctness),Passed,00:00:00.1073199,293926,0
KeezenStep.PlayKeepsColours (well-formedness),Passed,00:00:00.1072506,153807,0
Common.PaddedDigits (correctness),Passed,00:00:00.1072375,47508,0
MejnPaths.RouteAt (well-formedness),Passed,00:00:00.1069327,43258,0
KeezenDeal.DealCardsShares (correctness),Passed,00:00:00.1058009,266973,0
Cards.ValueOfRank (well-formedness),Passed,00:00:00.1053379,195335,0
KeezenPaths.BackFromStartHops (correctness),Passed,00:00:00.1049565,82798,0
CarryFinding.Lead (well-formedness),Passed,00:00:00.1049002,166297,0
KeezenPaths.HomeOnlyAtEnd (well-formedness),Passed,00:00:00.1047614,121731,0
KeezenPaths.HopFacts (well-formedness),Passed,00:00:00.1041856,99849,0
KeezenStep.DealKeepsDealt (well-formedness),Passed,00:00:00.1036400,192690,0
KeezenStep.PlayKeepsColours (correctness),Passed,00:00:00.1035668,190479,0
KeezenActions.DecodeEncode (correctness),Passed,00:00:00.1030597,204661,0
KeezenDeal.FirstSeatStep (correctness),Passed,00:00:00.1024630,341591,0
CardOps.SwitchWith (well-formedness),Passed,00:00:00.1023251,105856,0
MejnActions.AllowedIdDecodes (well-formedness),Passed,00:00:00.1023067,239929,0
BoardState.Reset (well-formedness),Passed,00:00:00.1014648,163809,0
Moves.HitAlwaysLands (correctness),Passed,00:00:00.1012423,84290,0
Moves.SendBack (correctness),Passed,00:00:00.1003887,175482,0
CardOps.CarryLead (well-formedness),Passed,00:00:00.1001641,189589,0
MejnPaths.JunctionHop (correctness),Passed,00:00:00.0999852,141773,0
KeezenBoard.NeighbourNotWait (correctness),Passed,00:00:00.0998345,409448,0
BoardState.FullPenHoldsAll (correctness),Passed,00:00:00.0993551,156613,0
KeezenStep.PlayKeepsCards (correctness),Passed,00:00:00.0981654,121664,0
KeezenGame.SwitchMadeBy (correctness),Passed,00:00:00.0975148,275682,0
KeezenPaths.HomeNext (correctness),Passed,00:00:00.0974159,145148,0
CardOps.PutKeepsPens (well-formedness),Passed,00:00:00.0972142,63613,0
MejnPaths.HomeHop (well-formedness),Passed,00:00:00.0965914,81444,0
KeezenBoard.LegKeepsGood (well-formedness),Passed,00:00:00.0961797,110261,0
MejnPaths.HomeRun (correctness),Passed,00:00:00.0961674,231211,0
KeezenStep.InitCardsDealt (well-formedness),Passed,00:00:00.0952711,194041,0
Cards.ResetCards (well-formedness),Passed,00:00:00.0940216,122286,0
Layout.MejnBoardFacts (correctness),Passed,00:00:00.0937665,222619,0
MejnPaths.RouteHopLast (correctness),Passed,00:00:00.0936285,144243,0
CardOps.SwitchOf (well-formedness),Passed,00:00:00.0935264,84941,0
KeezenStep.InitColours (well-formedness),Passed,00:00:00.0924833,181288,0
CardOps.StartOpen (well-formedness),Passed,00:00:00.0924363,36336,0
MejnGame.ChoiceOf (well-formedness),Passed,00:00:00.0918727,172796,0
Layout.AdjacencyShape (correctness),Passed,00:00:00.0898000,417205,0
Rules.InitializeCards (well-formedness),Passed,00:00:00.0897903,95861,0
CardOps.Choices (well-formedness),Passed,00:00:00.0890511,160615,0
Rules.ScheduleUsesDeck (well-formedness),Passed,00:00:00.0889666,60004,0
KeezenBoard.PlayTwo (correctness),Passed,00:00:00.0887445,190646,0
MejnPaths.MejnHopRules (correctness),Passed,00:00:00.0875627,71914,0
MejnPaths.RouteHopTrack (correctness),Passed,00:00:00.0875299,86903,0
KeezenActions.RestDecoded (correctness),Passed,00:00:00.0874002,206914,0
KeezenBoard.PairKeepsGood (well-formedness),Passed,00:00:00.0866627,214875,0
KeezenDeal.LaterSeatStep (correctness),Passed,00:00:00.0866241,173175,0
KeezenPaths.BackFromJunction (correctness),Passed,00:00:00.0863863,115764,0
KeezenPaths.RingHop (correctness),Passed,00:00:00.0856761,73041,0
KeezenStep.InitDealt (well-formedness),Passed,00:00:00.0844733,193251,0
KeezenStep.StockSchedule (well-formedness),Passed,00:00:00.0841991,77293,0
KeezenDeal.DealFromConserves (correctness),Passed,00:00:00.0837214,186098,0
CarryFinding.SecondLegHits (correctness),Passed,00:00:00.0837095,168633,0
Common.Collect (well-formedness),Passed,00:00:00.0829673,65838,0
MejnGame.InitialNotOver (correctness),Passed,00:00:00.0827109,188445,0
KeezenPaths.BackFromStart (well-formedness),Passed,00:00:00.0824268,78140,0
KeezenPaths.PathOnBoard (correctness),Passed,00:00:00.0822614,133979,0
CardOps.TwoLegs (well-formedness),Passed,00:00:00.0812627,99118,0
KeezenBoard.StartKeepsGood (well-formedness),Passed,00:00:00.0810087,141552,0
CardOps.FirstAway (well-formedness),Passed,00:00:00.0805550,126076,0
CardOps.SamePens (correctness),Passed,00:00:00.0796230,94831,0
Moves.ApplyHits (well-formedness),Passed,00:00:00.0795382,57653,0
MejnPaths.RouteHopHome (well-formedness),Passed,00:00:00.0792147,34983,0
BoardState.AllMarbles (well-formedness),Passed,00:00:00.0790061,133458,0
KeezenPaths.RingHopBack (correctness),Passed,00:00:00.0772684,379407,0
CarryFinding.PenFree (correctness),Passed,00:00:00.0769360,186477,0
Seats.PrevSeat (well-formedness),Passed,00:00:00.0766863,525179,0
KeezenBoard.LeadLegFree (correctness),Passed,00:00:00.0765531,177023,0
KeezenPaths.TrackBefore (well-formedness),Passed,00:00:00.0765531,74683,0
CardOps.PutKeepsPens (correctness),Passed,00:00:00.0762399,109831,0
KeezenBoard.PathEndField (well-formedness),Passed,00:00:00.0762090,135548,0
KeezenPaths.RingChain (well-formedness),Passed,00:00:00.0760817,108556,0
Cards.PlayCards (well-formedness),Passed,00:00:00.0759417,115639,0
Layout.PrevHasNext (correctness),Passed,00:00:00.0756801,410315,0
Common.FlatMap (well-formedness),Passed,00:00:00.0753147,37179,0
CardOps.SwitchExchanges (well-formedness),Passed,00:00:00.0752195,82864,0
CardOps.SamePens (well-formedness),Passed,00:00:00.0748839,39128,0
CardOps.SwitchCollected (well-formedness),Passed,00:00:00.0721606,127852,0
Rules.OpsByRank (well-formedness),Passed,00:00:00.0716832,38137,0
BoardState.EmptyWaitField (well-formedness),Passed,00:00:00.0711810,241562,0
MejnActions.TableEntryDecodes (correctness),Passed,00:00:00.0707677,82994,0
Rules.DeckDistinct (correctness),Passed,00:00:00.0705098,56452,0
MejnActions.TableListsIds (correctness),Passed,00:00:00.0704629,420031,0
Rules.SimpleDiffersOnlyInSeven (correctness),Passed,00:00:00.0700007,54965,0
KeezenDeal.DealFrom (well-formedness),Passed,00:00:00.0698238,130273,0
KeezenActions.RawAction (well-formedness),Passed,00:00:00.0696276,170096,0
KeezenActions.MarbleCode (well-formedness),Passed,00:00:00.0693618,154798,0
Moves.MarbleMoveKeepsBoard (well-formedness),Passed,00:00:00.0689864,104995,0
Cards.PlayShift (correctness),Passed,00:00:00.0687738,199114,0
MejnPaths.RouteHop (correctness),Passed,00:00:00.0686266,64554,0
KeezenPaths.BackHopOnTrack (well-formedness),Passed,00:00:00.0684755,76999,0
KeezenBoard.PathEndField (correctness),Passed,00:00:00.0684511,142430,0
KeezenActions.SwitchTail (well-formedness),Passed,00:00:00.0680241,69291,0
MejnActions.TableEntryDecodes (well-formedness),Passed,00:00:00.0677589,55245,0
MejnPaths.RouteHop (well-formedness),Passed,00:00:00.0675159,36529,0
CardOps.ChoicesCollected (correctness),Passed,00:00:00.0674524,122965,0
KeezenBoard.LeadLegFree (well-formedness),Passed,00:00:00.0673957,153607,0
CarryFinding.FiveHops (well-formedness),Passed,00:00:00.0667054,24366,0
KeezenStep.ScheduleSums (correctness),Passed,00:00:00.0661554,154028,0
CardOps.AfterMoveIsPlay (well-formedness),Passed,00:00:00.0659736,91198,0
Layout.HomeListExact (correctness),Passed,00:00:00.0658849,312687,0
KeezenStep.DealKeepsCards (well-formedness),Passed,00:00:00.0658358,149204,0
Cards.Shuffle (well-formedness),Passed,00:00:00.0655521,107445,0
CardOps.LenChoices (well-formedness),Passed,00:00:00.0646279,96879,0
MejnPaths.SixFrom41 (correctness),Passed,00:00:00.0644277,78985,0
BoardState.ResetStep (correctness),Passed,00:00:00.0643469,125117,0
KeezenPaths.ForwardAtOwnJunction (well-formedness),Passed,00:00:00.0640730,85967,0
KeezenPaths.RingHopOn (correctness),Passed,00:00:00.0639728,181802,0
KeezenDeal.ReceivedFirst (correctness),Passed,00:00:00.0637000,197555,0
KeezenActions.PathStep (correctness),Passed,00:00:00.0634292,137337,0
KeezenGame.StartMadeBy (correctness),Passed,00:00:00.0633793,164879,0
KeezenPaths.RingHopOver (correctness),Passed,00:00:00.0633271,124202,0
BoardState.PutFacts (correctness),Passed,00:00:00.0629051,121926,0
MejnGame.InitGame (well-formedness),Passed,00:00:00.0627188,130016,0
KeezenPaths.OwnerBlocksStart (well-formedness),Passed,00:00:00.0626199,79954,0
Paths.WalkIsChain (correctness),Passed,00:00:00.0625852,140863,0
MejnPaths.RouteHopJunction (well-formedness),Passed,00:00:00.0619910,36753,0
Paths.FullChainIsWalk (correctness),Passed,00:00:00.0617615,111341,0
KeezenDeal.ReceivedLater (well-formedness),Passed,00:00:00.0609749,18150,0
BoardState.FullPenHasNoFreeField (well-formedness),Passed,00:00:00.0609611,57109,0
Seats.JoinTeam (well-formedness),Passed,00:00:00.0604092,57752,0
KeezenActions.BodyOfCode (correctness),Passed,00:00:00.0599652,154960,0
CardOps.SplitShape (well-formedness),Passed,00:00:00.0596694,58654,0
MejnPaths.Route (well-formedness),Passed,00:00:00.0595544,73081,0
KeezenStep.PlayKeepsCards (well-formedness),Passed,00:00:00.0594579,113237,0
KeezenStep.DealStepOk (well-formedness),Passed,00:00:00.0593479,115354,0
Cards.PlayShift (well-formedness),Passed,00:00:00.0588734,30519,0
Rules.MakeRules (well-formedness),Passed,00:00:00.0584407,12842,0
Layout.NextHasPrev (correctness),Passed,00:00:00.0582980,430471,0
BoardState.FreeWaitFieldExists (correctness),Passed,00:00:00.0582539,65890,0
BoardState.MarblesOnKind (well-formedness),Passed,00:00:00.0576524,114283,0
Rules.SuitPosOrder (correctness),Passed,00:00:00.0575628,20212,0
Common.Pairs (well-formedness),Passed,00:00:00.0574827,32347,0
Paths.PathFrom (well-formedness),Passed,00:00:00.0573491,123348,0
CardOps.IsSwitchable (well-formedness),Passed,00:00:00.0573172,37766,0
MejnPaths.RouteHopHome (correctness),Passed,00:00:00.0572025,85055,0
KeezenBoard.LastNotWait (well-formedness),Passed,00:00:00.0570217,126836,0
Paths.FirstAllowed (well-formedness),Passed,00:00:00.0569213,108596,0
MejnGame.StartKeepsBoard (correctness),Passed,00:00:00.0568196,137255,0
Common.TwoDigits (well-formedness),Passed,00:00:00.0565409,28091,0
KeezenBoard.SwitchKeepsGood (well-formedness),Passed,00:00:00.0564546,114001,0
BoardState.FieldOfOnInjective (correctness),Passed,00:00:00.0560921,47652,0
Paths.Hop (well-formedness),Passed,00:00:00.0553122,95815,0
KeezenActions.IdParts (correctness),Passed,00:00:00.0552064,71174,0
KeezenPaths.RingHop (well-formedness),Passed,00:00:00.0551621,52371,0
Layout.FieldListsIncreasing (correctness),Passed,00:00:00.0548149,150834,0
MejnActions.TableMiddle (correctness),Passed,00:00:00.0546386,250264,0
CarryFinding.PlayQuiet (correctness),Passed,00:00:00.0543937,99269,0
KeezenDeal.DealCardsShares (well-formedness),Passed,00:00:00.0542206,109193,0
Moves.ApplyMarbleMoves (well-formedness),Passed,00:00:00.0540990,67381,0
KeezenActions.ActionId (well-formedness),Passed,00:00:00.0539443,137163,0
BoardState.ResetStep (well-formedness),Passed,00:00:00.0538991,74566,0
KeezenActions.TailDecoded (correctness),Passed,00:00:00.0533991,85347,0
Cards.RankRoundTrip (correctness),Passed,00:00:00.0526520,87030,0
KeezenPaths.FourHops (correctness),Passed,00:00:00.0526423,56669,0
Common.ZFill2 (well-formedness),Passed,00:00:00.0525839,90001,0
CardOps.FirstHomeOf (well-formedness),Passed,00:00:00.0522133,54456,0
KeezenGame.Dedup (well-formedness),Passed,00:00:00.0521450,96587,0
MejnGame.InitialPens (correctness),Passed,00:00:00.0517939,103888,0
Rules.SuitPosOrder (well-formedness),Passed,00:00:00.0511859,13609,0
KeezenDeal.LaterSeatStep (well-formedness),Passed,00:00:00.0511594,83656,0
CarryFinding.Boxed (well-formedness),Passed,00:00:00.0510926,107591,0
MejnPaths.RouteHopTrack (well-formedness),Passed,00:00:00.0505024,34693,0
Common.NatStr (well-formedness),Passed,00:00:00.0503909,32965,0
Seats.NextThenPrev (correctness),Passed,00:00:00.0503600,351031,0
KeezenActions.TrackStep (correctness),Passed,00:00:00.0490923,244536,0
Common.DigitRoundTrip (well-formedness),Passed,00:00:00.0489918,12877,0
MejnPaths.TwoFrom40 (correctness),Passed,00:00:00.0487763,42179,0
KeezenPaths.FourHops (well-formedness),Passed,00:00:00.0485648,24020,0
Layout.StartListExact (correctness),Passed,00:00:00.0484298,112566,0
KeezenGame.RewardTotal (well-formedness),Passed,00:00:00.0484012,111055,0
CardOps.OwnHomeAfter (well-formedness),Passed,00:00:00.0479410,54272,0
CarryFinding.GreenHops (well-formedness),Passed,00:00:00.0478102,80518,0
KeezenActions.BodyOfCode (well-formedness),Passed,00:00:00.0477901,65149,0
MejnPaths.RouteHopLast (well-formedness),Passed,00:00:00.0477261,33936,0
KeezenDeal.DealFromUnroll (correctness),Passed,00:00:00.0475564,66310,0
CarryFinding.SceneHomes (correctness),Passed,00:00:00.0464588,118579,0
Cards.DealCard (well-formedness),Passed,00:00:00.0464030,87599,0
KeezenGame.AddsEarliest (correctness),Passed,00:00:00.0461164,99716,0
MejnActions.TableBack (correctness),Passed,00:00:00.0459940,321075,0
CarryFinding.HomeCount (well-formedness),Passed,00:00:00.0457713,86908,0
Paths.HopLink (well-formedness),Passed,00:00:00.0456197,96951,0
Common.DigitRoundTrip (correctness),Passed,00:00:00.0452161,39241,0
KeezenDeal.FirstSeatStep (well-formedness),Passed,00:00:00.0451577,75327,0
KeezenActions.AheadIsCount (correctness),Passed,00:00:00.0450617,118436,0
Moves.PutKeepsBoard (well-formedness),Passed,00:00:00.0446895,76416,0
KeezenActions.IdJoin (correctness),Passed,00:00:00.0446853,149523,0
KeezenDeal.DealStepShares (correctness),Passed,00:00:00.0445551,398938,0
MejnActions.RawAction (well-formedness),Passed,00:00:00.0439336,54086,0
Moves.MostlyWellFormed (well-formedness),Passed,00:00:00.0438721,53496,0
KeezenActions.EncodeDecode (correctness),Passed,00:00:00.0437543,98631,0
CardOps.Leg (well-formedness),Passed,00:00:00.0435965,38207,0
Common.Row (well-formedness),Passed,00:00:00.0433294,30824,0
CarryFinding.PlayHit (well-formedness),Passed,00:00:00.0433117,67814,0
KeezenGame.AddsCovers (correctness),Passed,00:00:00.0432498,74580,0
BoardState.WaitHeadIsLowest (well-formedness),Passed,00:00:00.0431368,84009,0
KeezenActions.SplitTail (well-formedness),Passed,00:00:00.0429069,65466,0
MejnPaths.TwoFrom40 (well-formedness),Passed,00:00:00.0427444,23689,0
Common.StepBack (well-formedness),Passed,00:00:00.0424396,24783,0
KeezenActions.PathShape (correctness),Passed,00:00:00.0423176,109267,0
Rules.SuitPos (well-formedness),Passed,00:00:00.0422276,22235,0
KeezenStep.StockSchedule (correctness),Passed,00:00:00.0422234,110775,0
Paths.HopLink (correctness),Passed,00:00:00.0417484,100932,0
Cards.DealConserves (well-formedness),Passed,00:00:00.0415203,50705,0
KeezenBoard.RunBound (correctness),Passed,00:00:00.0414954,61595,0
KeezenGame.KeepsEarliest (correctness),Passed,00:00:00.0414062,78795,0
KeezenStep.Restock (well-formedness),Passed,00:00:00.0413930,76091,0
Common.MinExists (correctness),Passed,00:00:00.0413228,36370,0
KeezenDeal.DealFromUnroll (well-formedness),Passed,00:00:00.0413193,53383,0
MejnGame.OneWinner (well-formedness),Passed,00:00:00.0412142,76128,0
KeezenStep.Switches (well-formedness),Passed,00:00:00.0410358,65574,0
KeezenDeal.DealCards (well-formedness),Passed,00:00:00.0406956,67320,0
Common.DigitChar (well-formedness),Passed,00:00:00.0402537,13359,0
BoardState.InitialBoardFacts (well-formedness),Passed,00:00:00.0401871,67707,0
KeezenActions.PositionOrder (correctness),Passed,00:00:00.0397764,83333,0
Seats.TeamMateOfTeamMate (correctness),Passed,00:00:00.0392114,22273,0
Common.StepBackUndoesRecord (correctness),Passed,00:00:00.0391993,26216,0
BoardState.FieldOf (well-formedness),Passed,00:00:00.0388715,62947,0
KeezenActions.BodyDecoded (correctness),Passed,00:00:00.0386663,82406,0
MejnPaths.HomeRun (well-formedness),Passed,00:00:00.0386367,26202,0
BoardState.InitialBoard (well-formedness),Passed,00:00:00.0386213,72680,0
KeezenActions.CodeRest (well-formedness),Passed,00:00:00.0382743,39014,0
KeezenActions.IdParts (well-formedness),Passed,00:00:00.0382364,73734,0
Cards.RemoveFirst (well-formedness),Passed,00:00:00.0377458,77593,0
KeezenGame.KeepsCovers (correctness),Passed,00:00:00.0376156,62345,0
BoardState.FullPenHoldsAll (well-formedness),Passed,00:00:00.0371090,52710,0
KeezenActions.PositionMeaning (well-formedness),Passed,00:00:00.0370340,72782,0
Cards.InitialCardState (well-formedness),Passed,00:00:00.0365972,61269,0
KeezenActions.RestDecoded (well-formedness),Passed,00:00:00.0363441,70926,0
Layout.LastHomeField (well-formedness),Passed,00:00:00.0362777,41810,0
MejnActions.StartRoundTrip (correctness),Passed,00:00:00.0362526,66670,0
MejnActions.DecodeEncode (correctness),Passed,00:00:00.0361523,51578,0
KeezenActions.DecodeBody (well-formedness),Passed,00:00:00.0359496,49250,0
KeezenActions.MarblePosition (well-formedness),Passed,00:00:00.0356902,72721,0
KeezenDeal.DealFromConserves (well-formedness),Passed,00:00:00.0356562,55905,0
KeezenActions.IdJoin (well-formedness),Passed,00:00:00.0355742,36032,0
Common.Digit (well-formedness),Passed,00:00:00.0353555,12810,0
KeezenActions.EncodeDecode (well-formedness),Passed,00:00:00.0352556,72279,0
Seats.NextSeat (well-formedness),Passed,00:00:00.0351527,265760,0
Cards.Rank (well-formedness),Passed,00:00:00.0351062,38271,0
KeezenActions.Slot (well-formedness),Passed,00:00:00.0348062,60961,0
Cards.ResetCount (correctness),Passed,00:00:00.0347712,51522,0
Layout.MejnBoardFacts (well-formedness),Passed,00:00:00.0346659,80745,0
BoardState.FinishedIffAllHome (well-formedness),Passed,00:00:00.0346124,56784,0
CardOps.StopField (well-formedness),Passed,00:00:00.0345675,29422,0
Seats.StandardTeamsPartner (well-formedness),Passed,00:00:00.0345602,44751,0
Layout.NeighboursAreFields (correctness),Passed,00:00:00.0342460,139815,0
KeezenActions.EncodeParts (correctness),Passed,00:00:00.0341689,62248,0
KeezenDeal.DealCardOthers (well-formedness),Passed,00:00:00.0340457,51344,0
KeezenActions.CellNextTrack (correctness),Passed,00:00:00.0340347,53044,0
Seats.TeamMate (well-formedness),Passed,00:00:00.0339632,35011,0
BoardState.WaitFieldOfColor (correctness),Passed,00:00:00.0338821,54725,0
KeezenActions.PositionsDistinct (correctness),Passed,00:00:00.0336855,75333,0
KeezenStep.CardsDealt (well-formedness),Passed,00:00:00.0333950,77041,0
KeezenDeal.DealCardOthers (correctness),Passed,00:00:00.0330025,46491,0
KeezenActions.PathRoundTrip (correctness),Passed,00:00:00.0327885,34287,0
BoardState.MarblesWithColor (well-formedness),Passed,00:00:00.0327826,30459,0
KeezenActions.TailDecoded (well-formedness),Passed,00:00:00.0327686,32654,0
KeezenActions.Decode (well-formedness),Passed,00:00:00.0327180,61993,0
Cards.PlayConserves (well-formedness),Passed,00:00:00.0326141,53213,0
Cards.ShuffleStep (correctness),Passed,00:00:00.0323915,37037,0
KeezenActions.PathStep (well-formedness),Passed,00:00:00.0323332,34314,0
KeezenActions.BodyDecoded (well-formedness),Passed,00:00:00.0322809,66669,0
Cards.SuitValue (well-formedness),Passed,00:00:00.0321602,11779,0
KeezenActions.PathIndexInverse (correctness),Passed,00:00:00.0321144,44358,0
KeezenGame.FlattenNil (correctness),Passed,00:00:00.0321016,52073,0
BoardState.OnKindOnWellFormed (correctness),Passed,00:00:00.0320215,57371,0
KeezenActions.TailRoundTrip (correctness),Passed,00:00:00.0319662,81783,0
Paths.WalkPrefix (correctness),Passed,00:00:00.0318628,132054,0
CarryFinding.SceneGood (correctness),Passed,00:00:00.0318426,79273,0
KeezenActions.SlotsDistinct (correctness),Passed,00:00:00.0318401,72873,0
KeezenActions.CellIndex (well-formedness),Passed,00:00:00.0318378,18817,0
Cards.PermutationTail (correctness),Passed,00:00:00.0315700,47536,0
BoardState.FieldOfOnInjective (well-formedness),Passed,00:00:00.0313178,28067,0
BoardState.MarblesOnKindHead (well-formedness),Passed,00:00:00.0312586,51265,0
Common.Sum (well-formedness),Passed,00:00:00.0311143,12161,0
KeezenActions.PositionOrder (well-formedness),Passed,00:00:00.0310788,69333,0
Layout.WaitField (well-formedness),Passed,00:00:00.0310235,53998,0
MejnGame.InitialPens (well-formedness),Passed,00:00:00.0308790,58979,0
Paths.KeezenAllowed (well-formedness),Passed,00:00:00.0307949,55223,0
CarryFinding.PenFree (well-formedness),Passed,00:00:00.0305957,76956,0
KeezenActions.Beyond (well-formedness),Passed,00:00:00.0305916,9141,0
BoardState.PutFacts (well-formedness),Passed,00:00:00.0304180,39008,0
MejnGame.StartOf (well-formedness),Passed,00:00:00.0303317,58490,0
MejnActions.EncodeInjective (correctness),Passed,00:00:00.0302988,50234,0
CarryFinding.FiveHops (correctness),Passed,00:00:00.0302222,63475,0
Layout.StartFields (well-formedness),Passed,00:00:00.0301799,31318,0
Cards.EmptyHands (well-formedness),Passed,00:00:00.0301605,32626,0
Common.DigitValue (well-formedness),Passed,00:00:00.0301408,9362,0
Rules.CardsPerRound (well-formedness),Passed,00:00:00.0299815,4427,0
Common.DigitChar (correctness),Passed,00:00:00.0295995,32241,0
MejnPaths.SixFrom41 (well-formedness),Passed,00:00:00.0295888,25521,0
BoardState.OnKindOnWellFormed (well-formedness),Passed,00:00:00.0294346,49745,0
Paths.ShiftChain (correctness),Passed,00:00:00.0293760,45141,0
BoardState.WaitOccupant (well-formedness),Passed,00:00:00.0291291,47012,0
KeezenActions.CellNextLast (correctness),Passed,00:00:00.0282120,72125,0
KeezenDeal.Dist (well-formedness),Passed,00:00:00.0278189,37904,0
Layout.FieldListsIncreasing (well-formedness),Passed,00:00:00.0277388,50463,0
BoardState.WaitOccupantOf (correctness),Passed,00:00:00.0273005,39461,0
KeezenStep.ScheduleSums (well-formedness),Passed,00:00:00.0271321,68324,0
Common.Min (well-formedness),Passed,00:00:00.0270647,15211,0
KeezenDeal.ReceivedLater (correctness),Passed,00:00:00.0268089,64674,0
MejnActions.TableListsIds (well-formedness),Passed,00:00:00.0262676,45573,0
Common.Last (well-formedness),Passed,00:00:00.0261025,5120,0
KeezenActions.CellRoundTrip (correctness),Passed,00:00:00.0257314,47777,0
Cards.FlattenEmpty (correctness),Passed,00:00:00.0256844,37316,0
KeezenActions.OnPath (correctness),Passed,00:00:00.0254461,39988,0
MejnActions.TableEnd (correctness),Passed,00:00:00.0253574,85197,0
MejnActions.IdInTable (well-formedness),Passed,00:00:00.0252491,53763,0
KeezenStep.StockLeft (well-formedness),Passed,00:00:00.0252358,60320,0
Layout.AdjacencyShape (well-formedness),Passed,00:00:00.0251385,43157,0
Paths.Walk (well-formedness),Passed,00:00:00.0249026,26409,0
KeezenActions.PathShape (well-formedness),Passed,00:00:00.0248075,58349,0
KeezenActions.EncodeParts (well-formedness),Passed,00:00:00.0246049,46556,0
KeezenDeal.Shares (well-formedness),Passed,00:00:00.0245010,6695,0
KeezenGame.IsRoundOver (well-formedness),Passed,00:00:00.0242581,48248,0
BoardState.MarbleIdx (well-formedness),Passed,00:00:00.0241366,3672,0
BoardState.Cover4 (correctness),Passed,00:00:00.0240420,60332,0
KeezenActions.CellIndexInverse (correctness),Passed,00:00:00.0239522,104302,0
KeezenActions.Cell (well-formedness),Passed,00:00:00.0235508,21578,0
CarryFinding.TwoHopsThenStop (correctness),Passed,00:00:00.0233155,44602,0
KeezenActions.PathIndex (well-formedness),Passed,00:00:00.0229040,25778,0
MejnActions.TableIndex (well-formedness),Passed,00:00:00.0228156,66346,0
MejnGame.Die (well-formedness),Passed,00:00:00.0226299,3679,0
KeezenGame.NoneBefore (well-formedness),Passed,00:00:00.0226090,20811,0
KeezenActions.PathCell (well-formedness),Passed,00:00:00.0225777,33244,0
Paths.WalkStep (well-formedness),Passed,00:00:00.0224647,24157,0
KeezenActions.CellNextJunction (correctness),Passed,00:00:00.0224394,44411,0
MejnActions.IdInTable (correctness),Passed,00:00:00.0223632,53004,0
MejnActions.Decode (well-formedness),Passed,00:00:00.0223359,37552,0
KeezenActions.AheadOrder (correctness),Passed,00:00:00.0221080,121423,0
CarryFinding.ScenePlaced (correctness),Passed,00:00:00.0219722,50631,0
Layout.HomeFields (well-formedness),Passed,00:00:00.0218940,32654,0
BoardState.WaitFieldOfColor (well-formedness),Passed,00:00:00.0218917,24910,0
KeezenActions.PathIndexInverse (well-formedness),Passed,00:00:00.0218775,33813,0
KeezenActions.AheadZero (correctness),Passed,00:00:00.0218587,44512,0
BoardState.WaitOccupantOf (well-formedness),Passed,00:00:00.0217884,25994,0
Layout.WaitFields (well-formedness),Passed,00:00:00.0216126,36285,0
Rules.PlayerStart (well-formedness),Passed,00:00:00.0215748,3752,0
Cards.IndexOf (well-formedness),Passed,00:00:00.0215503,33253,0
KeezenDeal.Received (well-formedness),Passed,00:00:00.0214237,20475,0
Paths.WalkIsChain (well-formedness),Passed,00:00:00.0213381,29410,0
Cards.CardCount (well-formedness),Passed,00:00:00.0212654,19310,0
Seats.StandardTeams (well-formedness),Passed,00:00:00.0212446,8200,0
Seats.NextThenPrev (well-formedness),Passed,00:00:00.0212113,7220,0
KeezenGame.AddsFromHand (correctness),Passed,00:00:00.0211938,16029,0
BoardState.OnKind (well-formedness),Passed,00:00:00.0211201,36347,0
MejnActions.EncodeDecode (well-formedness),Passed,00:00:00.0210904,43543,0
KeezenActions.CellNextJunction (well-formedness),Passed,00:00:00.0210822,27495,0
Layout.Index (well-formedness),Passed,00:00:00.0210309,7664,0
MejnActions.TableEnd (well-formedness),Passed,00:00:00.0208977,36881,0
Cards.ShuffleStep (well-formedness),Passed,00:00:00.0208152,19692,0
KeezenActions.PathRoundTrip (well-formedness),Passed,00:00:00.0207118,33795,0
Paths.Backwards (well-formedness),Passed,00:00:00.0206006,17246,0
Paths.ChainIsWalk (well-formedness),Passed,00:00:00.0205426,29815,0
Layout.Decompose (correctness),Passed,00:00:00.0204825,37657,0
KeezenDeal.DealStepShares (well-formedness),Passed,00:00:00.0203621,18261,0
Cards.Flatten (well-formedness),Passed,00:00:00.0201777,12703,0
KeezenActions.TrackStep (well-formedness),Passed,00:00:00.0201029,34357,0
CarryFinding.SceneHomes (well-formedness),Passed,00:00:00.0200542,33798,0
KeezenActions.BeyondStep (well-formedness),Passed,00:00:00.0200052,15523,0
Layout.StartFieldUnique (correctness),Passed,00:00:00.0200048,37386,0
KeezenGame.AddsEarliest (well-formedness),Passed,00:00:00.0199636,34816,0
KeezenPaths.RingStep (correctness),Passed,00:00:00.0198803,11606,0
KeezenActions.CellNextHome (correctness),Passed,00:00:00.0195084,47274,0
KeezenGame.AddsDistinct (well-formedness),Passed,00:00:00.0195026,24648,0
Cards.FlattenUpdate (well-formedness),Passed,00:00:00.0195011,19799,0
KeezenGame.KeepsCovers (well-formedness),Passed,00:00:00.0194108,25733,0
KeezenActions.CellNextLast (well-formedness),Passed,00:00:00.0194103,29128,0
Cards.CountIsPoolSize (correctness),Passed,00:00:00.0194087,28451,0
CarryFinding.SceneKinds (well-formedness),Passed,00:00:00.0191671,41438,0
Paths.ShiftChain (well-formedness),Passed,00:00:00.0190929,29047,0
Cards.Balance (correctness),Passed,00:00:00.0188498,19766,0
BoardState.Injective (well-formedness),Passed,00:00:00.0187691,17353,0
Layout.StartField (well-formedness),Passed,00:00:00.0185316,26849,0
MejnActions.TableMiddle (well-formedness),Passed,00:00:00.0180672,36914,0
Layout.Block (well-formedness),Passed,00:00:00.0176269,6685,0
KeezenActions.Encode (well-formedness),Passed,00:00:00.0173309,43926,0
KeezenDeal.EvenShares (well-formedness),Passed,00:00:00.0171873,5978,0
KeezenGame.AddsDistinct (correctness),Passed,00:00:00.0171436,34263,0
BoardState.MarbleAt (well-formedness),Passed,00:00:00.0171205,20366,0
KeezenGame.FirstAt (well-formedness),Passed,00:00:00.0170504,27121,0
KeezenActions.PathAt (well-formedness),Passed,00:00:00.0168862,25783,0
Seats.PartnerSeat (well-formedness),Passed,00:00:00.0168595,16928,0
KeezenBoard.RunBound (well-formedness),Passed,00:00:00.0168074,35440,0
CarryFinding.SevenOfHearts (well-formedness),Passed,00:00:00.0167205,3717,0
MejnActions.TableFront (well-formedness),Passed,00:00:00.0165189,36467,0
KeezenActions.CellRoundTrip (well-formedness),Passed,00:00:00.0165081,20661,0
Paths.IsChain (well-formedness),Passed,00:00:00.0164035,24602,0
Layout.FieldParts (correctness),Passed,00:00:00.0164032,30211,0
KeezenActions.CellIndexInverse (well-formedness),Passed,00:00:00.0162744,21601,0
KeezenActions.Valid (well-formedness),Passed,00:00:00.0161383,30419,0
Layout.AdjacencySymmetric (correctness),Passed,00:00:00.0161158,28389,0
Cards.PermutationTail (well-formedness),Passed,00:00:00.0158346,14025,0
KeezenGame.KeepsFromHand (correctness),Passed,00:00:00.0157227,15230,0
MejnActions.TableId (well-formedness),Passed,00:00:00.0156996,23175,0
CardOps.ValidChoice (well-formedness),Passed,00:00:00.0155500,13008,0
Seats.FourSeatCycle (well-formedness),Passed,00:00:00.0155198,13574,0
Cards.MultisetAdd (correctness),Passed,00:00:00.0153606,13331,0
KeezenActions.CellNextHome (well-formedness),Passed,00:00:00.0152596,28027,0
KeezenDeal.EvenShares (correctness),Passed,00:00:00.0152241,10800,0
KeezenActions.Gap (well-formedness),Passed,00:00:00.0151079,16895,0
KeezenActions.Ahead (well-formedness),Passed,00:00:00.0150292,25151,0
KeezenActions.AheadZero (well-formedness),Passed,00:00:00.0149537,11094,0
Seats.FourSeatCycle (correctness),Passed,00:00:00.0149383,9240,0
Paths.WalkStep (correctness),Passed,00:00:00.0147400,26561,0
MejnActions.TableBack (well-formedness),Passed,00:00:00.0146502,36914,0
Layout.Quarter (correctness),Passed,00:00:00.0145969,11645,0
Paths.WalkConcat (well-formedness),Passed,00:00:00.0145211,25146,0
Layout.NumFields (well-formedness),Passed,00:00:00.0144322,7471,0
Layout.MarblesPerColor (well-formedness),Passed,00:00:00.0139710,3752,0
Cards.SmallMod (well-formedness),Passed,00:00:00.0139179,3984,0
Layout.Color (well-formedness),Passed,00:00:00.0138561,3672,0
KeezenActions.HomeNext (correctness),Passed,00:00:00.0138364,20179,0
KeezenActions.PathLength (well-formedness),Passed,00:00:00.0136193,3752,0
KeezenActions.BeyondStep (correctness),Passed,00:00:00.0134969,25584,0
KeezenActions.Later (well-formedness),Passed,00:00:00.0134463,16460,0
Layout.NumPlayers (well-formedness),Passed,00:00:00.0133375,3752,0
BoardState.Cover4 (well-formedness),Passed,00:00:00.0133199,11358,0
MejnActions.TableCode (well-formedness),Passed,00:00:00.0132221,22999,0
KeezenGame.FlattenNil (well-formedness),Passed,00:00:00.0131995,11974,0
KeezenGame.ValuesDistinct (well-formedness),Passed,00:00:00.0131370,21572,0
KeezenGame.CoversValues (well-formedness),Passed,00:00:00.0129551,24125,0
CarryFinding.Scene (well-formedness),Passed,00:00:00.0128565,10777,0
KeezenGame.Earliest (well-formedness),Passed,00:00:00.0123721,28380,0
KeezenActions.CellNextTrack (well-formedness),Passed,00:00:00.0123701,28093,0
Cards.MultisetCancel (correctness),Passed,00:00:00.0122329,10602,0
Cards.PermutationHead (well-formedness),Passed,00:00:00.0120973,9990,0
KeezenActions.AheadOrder (well-formedness),Passed,00:00:00.0120362,10877,0
MejnGame.NoMove (well-formedness),Passed,00:00:00.0116440,11140,0
KeezenActions.SameCell (correctness),Passed,00:00:00.0116196,18147,0
Cards.PermutationHead (correctness),Passed,00:00:00.0112741,12340,0
KeezenActions.DecodeTail (well-formedness),Passed,00:00:00.0112636,25926,0
KeezenGame.NoFallbackFits (correctness),Passed,00:00:00.0112543,17958,0
Layout.Quarter (well-formedness),Passed,00:00:00.0110238,5243,0
KeezenStep.NextRound (correctness),Passed,00:00:00.0108697,19139,0
Layout.LastTrack (well-formedness),Passed,00:00:00.0107787,7073,0
Layout.WaitBase (well-formedness),Passed,00:00:00.0102127,7073,0
KeezenActions.LaterGap (correctness),Passed,00:00:00.0094745,14889,0
KeezenStep.ColoursOk (well-formedness),Passed,00:00:00.0092099,14212,0
Paths.At (well-formedness),Passed,00:00:00.0091447,6510,0
KeezenActions.AheadIsCount (well-formedness),Passed,00:00:00.0090089,12830,0
Layout.BlockSize (well-formedness),Passed,00:00:00.0088742,6240,0
KeezenStep.NextRound (well-formedness),Passed,00:00:00.0084366,4298,0
CarryFinding.G3 (well-formedness),Passed,00:00:00.0083098,4641,0
KeezenActions.ValidTail (well-formedness),Passed,00:00:00.0074601,8860,0
KeezenActions.LaterGap (well-formedness),Passed,00:00:00.0073594,6592,0
CarryFinding.B0 (well-formedness),Passed,00:00:00.0069143,4639,0
KeezenStep.OwnColours (well-formedness),Passed,00:00:00.0068909,5216,0
