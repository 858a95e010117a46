TestResult.DisplayName,TestResult.Outcome,TestResult.Duration,TestResult.ResourceCount,RandomSeed
KeezenBoard.RunOpKeepsGood (correctness),Passed,00:00:00.6468680,1628197,1
KeezenStep.PlayKeepsDealt (correctness),Passed,00:00:00.4982680,778001,1
CarryFinding.HomeCount (correctness),Passed,00:00:00.4551844,950258,1
KeezenGame.AllowedMoves (well-formedness),Passed,00:00:00.4527882,908693,1
CardOps.MainSplits (well-formedness),Passed,00:00:00.4450623,1091980,1
KeezenBoard.CarryStaysHome (correctness),Passed,00:00:00.4406062,936221,1
CarryFinding.CarryOverFinding (correctness),Passed,00:00:00.4287852,1171440,1
KeezenBoard.SwitchKeepsGood (correctness),Passed,00:00:00.4227810,688308,1
CardOps.SplitMovesSpec (well-formedness),Passed,00:00:00.3973861,723297,1
KeezenGame.CardMoves (well-formedness),Passed,00:00:00.3935523,470165,1
CardOps.SplitMovesShape (well-formedness),Passed,00:00:00.3902799,318192,1
CarryFinding.SceneBoxed (correctness),Passed,00:00:00.3891555,766005,1
MejnGame.MovesFound (correctness),Passed,00:00:00.3797251,668716,1
KeezenStep.StepKeepsDealt (correctness),Passed,00:00:00.3772991,689287,1
CarryFinding.LeadStops (correctness),Passed,00:00:00.3760675,821636,1
KeezenStep.StepKeepsDealt (well-formedness),Passed,00:00:00.3745912,585237,1
KeezenGame.OpMoves (well-formedness),Passed,00:00:00.3681071,377470,1
KeezenStep.PlayKeepsDealt (well-formedness),Passed,00:00:00.3677753,534440,1
KeezenGame.IsOver (well-formedness),Passed,00:00:00.3511736,727868,1
KeezenBoard.OpKeepsGood (correctness),Passed,00:00:00.3471739,693362,1
MejnGame.Step (well-formedness),Passed,00:00:00.3455405,751805,1
KeezenGame.HandMoves (well-formedness),Passed,00:00:00.3439570,744250,1
CardOps.SplitMovesShape (correctness),Passed,00:00:00.3430735,364184,1
KeezenStep.AllowedPlayable (well-formedness),Passed,00:00:00.3351267,469633,1
KeezenBoard.PairKeepsGood (correctness),Passed,00:00:00.3319661,638384,1
CardOps.StartMoves (well-formedness),Passed,00:00:00.3290241,587179,1
KeezenStep.InitGame (well-formedness),Passed,00:00:00.3226497,401734,1
KeezenGame.HandMovesCollected (correctness),Passed,00:00:00.3172335,670280,1
CarryFinding.PartnerPath (correctness),Passed,00:00:00.3127518,745589,1
CarryFinding.NoMainSplit (correctness),Passed,00:00:00.3122920,884028,1
Moves.HitLands (correctness),Passed,00:00:00.3067034,607513,1
Seats.StandardTeamsPartner (correctness),Passed,00:00:00.3062524,675292,1
CardOps.SplitMovesSpec (correctness),Passed,00:00:00.3007507,672876,1
KeezenStep.AllowedPlayable (correctness),Passed,00:00:00.2911699,519167,1
CardOps.CarryOver (well-formedness),Passed,00:00:00.2892716,512034,1
KeezenBoard.AllowedKeepsBoard (correctness),Passed,00:00:00.2875596,589961,1
KeezenStep.Step (well-formedness),Passed,00:00:00.2868133,585013,1
CarryFinding.Lead (correctness),Passed,00:00:00.2820676,532918,1
CarryFinding.CarryWithB0 (correctness),Passed,00:00:00.2787950,466177,1
KeezenStep.PlayStep (well-formedness),Passed,00:00:00.2763018,581226,1
KeezenBoard.AllowedKeepsBoard (well-formedness),Passed,00:00:00.2754524,460802,1
KeezenGame.HandMovesCollected (well-formedness),Passed,00:00:00.2730424,438016,1
KeezenBoard.SplitKeepsGood (correctness),Passed,00:00:00.2725336,444395,1
KeezenPaths.HomeOnlyAtEnd (correctness),Passed,00:00:00.2621986,565267,1
MejnActions.AllowedIdsListed (correctness),Passed,00:00:00.2621295,545431,1
BoardState.MarblesOnKindHead (correctness),Passed,00:00:00.2620428,466133,1
MejnGame.OneWinner (correctness),Passed,00:00:00.2561728,569072,1
KeezenGame.RunMadeBy (correctness),Passed,00:00:00.2558847,309844,1
KeezenGame.CardMovesCollected (correctness),Passed,00:00:00.2544165,425139,1
KeezenPaths.PathForMarble (well-formedness),Passed,00:00:00.2535706,217711,1
CarryFinding.HomeStuck (correctness),Passed,00:00:00.2473893,540584,1
CardOps.SplitMoves (well-formedness),Passed,00:00:00.2436056,356299,1
MejnActions.AllowedIdsDistinct (correctness),Passed,00:00:00.2410280,533761,1
MejnPaths.MejnChainRules (correctness),Passed,00:00:00.2409751,140481,1
CarryFinding.NoOwnSplit (correctness),Passed,00:00:00.2369254,506657,1
KeezenBoard.CardMoveKeepsGood (correctness),Passed,00:00:00.2360779,418669,1
KeezenPaths.KeezenChainRules (correctness),Passed,00:00:00.2319956,244754,1
KeezenActions.AheadIsCount (correctness),Passed,00:00:00.2290840,113453,1
CardOps.CarryCollected (correctness),Passed,00:00:00.2275461,293051,1
KeezenGame.SplitMadeBy (correctness),Passed,00:00:00.2238507,411509,1
KeezenBoard.OpKeepsGood (well-formedness),Passed,00:00:00.2204186,364070,1
CarryFinding.CarryOverFinding (well-formedness),Passed,00:00:00.2199368,401887,1
MejnGame.AllowedComplete (correctness),Passed,00:00:00.2179144,300814,1
CarryFinding.CorrectedStaysHome (correctness),Passed,00:00:00.2145043,386112,1
MejnPaths.PathForColor (well-formedness),Passed,00:00:00.2127472,151220,1
KeezenPaths.PathForColor (well-formedness),Passed,00:00:00.2113672,198102,1
KeezenStep.DealKeepsDealt (correctness),Passed,00:00:00.2100151,319439,1
CardOps.RunMoves (well-formedness),Passed,00:00:00.2030250,461398,1
CarryFinding.AsWrittenSendsBack (correctness),Passed,00:00:00.2008305,344829,1
CarryFinding.CarryOnlyB0 (correctness),Passed,00:00:00.2005114,481118,1
MejnPaths.MejnChainRules (well-formedness),Passed,00:00:00.1985810,102932,1
CardOps.MainCollected (well-formedness),Passed,00:00:00.1982693,286629,1
MejnActions.TableFront (correctness),Passed,00:00:00.1980594,688174,1
Moves.MarbleMoveKeepsBoard (correctness),Passed,00:00:00.1970966,479658,1
MejnGame.IsOver (well-formedness),Passed,00:00:00.1952730,531283,1
CardOps.CarryFacts (correctness),Passed,00:00:00.1935552,268231,1
CarryFinding.CorrectedStaysHome (well-formedness),Passed,00:00:00.1934018,289269,1
MejnPaths.HomeHop (correctness),Passed,00:00:00.1928155,428989,1
CardOps.CarryOverShape (correctness),Passed,00:00:00.1904786,279916,1
KeezenActions.ActionIdDecodes (well-formedness),Passed,00:00:00.1897375,164991,1
MejnPaths.PathForMarble (well-formedness),Passed,00:00:00.1895452,314571,1
CarryFinding.OnlySplit (correctness),Passed,00:00:00.1892581,427701,1
CardOps.ChooseShape (correctness),Passed,00:00:00.1866605,296553,1
Moves.PutKeepsBoard (correctness),Passed,00:00:00.1860195,337052,1
MejnActions.EncodeDecode (correctness),Passed,00:00:00.1830714,535467,1
CarryFinding.NoBlockedSplit (well-formedness),Passed,00:00:00.1804940,232907,1
CardOps.CarryForVsAsWritten (correctness),Passed,00:00:00.1800758,299796,1
MejnGame.ChoiceKinds (correctness),Passed,00:00:00.1800132,230452,1
CardOps.AfterMoveIsPlay (correctness),Passed,00:00:00.1797508,315679,1
KeezenPaths.OwnerBlocksStart (correctness),Passed,00:00:00.1762711,456199,1
KeezenBoard.CarryOverKeepsGood (correctness),Passed,00:00:00.1757187,320187,1
CarryFinding.OnlySplit (well-formedness),Passed,00:00:00.1736548,379937,1
KeezenStep.InitCardsDealt (correctness),Passed,00:00:00.1735706,275462,1
KeezenBoard.ChoiceKeepsGood (well-formedness),Passed,00:00:00.1716696,243996,1
MejnGame.AllowedSound (correctness),Passed,00:00:00.1708737,254245,1
CarryFinding.AsWrittenSendsBack (well-formedness),Passed,00:00:00.1701566,289138,1
CardOps.BlockerIsOther (correctness),Passed,00:00:00.1697672,295499,1
CardOps.SwitchMovesSpec (well-formedness),Passed,00:00:00.1694948,593524,1
BoardState.AllMarbles (well-formedness),Passed,00:00:00.1682321,133492,1
KeezenBoard.PathLegKeepsGood (correctness),Passed,00:00:00.1682110,261367,1
KeezenPaths.WaitIsStuck (correctness),Passed,00:00:00.1675392,203979,1
MejnActions.AllowedIdDecodes (correctness),Passed,00:00:00.1675236,397707,1
CardOps.PairAfter (well-formedness),Passed,00:00:00.1675102,306574,1
KeezenBoard.LegsKeepGood (correctness),Passed,00:00:00.1648303,282260,1
KeezenStep.InitDealt (correctness),Passed,00:00:00.1641614,212301,1
CarryFinding.NoOwnSplit (well-formedness),Passed,00:00:00.1629078,254500,1
CardOps.CarryFacts (well-formedness),Passed,00:00:00.1628902,238226,1
MejnPaths.PathAlongRoute (correctness),Passed,00:00:00.1622496,143563,1
MejnGame.MoveKeepsBoard (correctness),Passed,00:00:00.1620902,323401,1
MejnPaths.RouteAt (correctness),Passed,00:00:00.1613791,391498,1
KeezenActions.TailMeaning (correctness),Passed,00:00:00.1612248,352090,1
MejnActions.AllowedIdDecodes (well-formedness),Passed,00:00:00.1611616,239375,1
KeezenStep.DealKeepsDealt (well-formedness),Passed,00:00:00.1607540,192684,1
CardOps.PairOrBlocked (correctness),Passed,00:00:00.1594072,223801,1
CardOps.SplitBlockedLegs (well-formedness),Passed,00:00:00.1594014,237097,1
MejnGame.AllowedMoves (well-formedness),Passed,00:00:00.1585439,256782,1
KeezenBoard.LegKeepsGood (correctness),Passed,00:00:00.1584861,232177,1
MejnGame.MarbleChoices (well-formedness),Passed,00:00:00.1564833,281006,1
CardOps.CarryFor (well-formedness),Passed,00:00:00.1545946,257621,1
KeezenPaths.ForwardHomeHop (correctness),Passed,00:00:00.1545083,127918,1
MejnGame.RunOf (well-formedness),Passed,00:00:00.1529879,256303,1
KeezenPaths.FourBackFromStart (correctness),Passed,00:00:00.1526799,285849,1
MejnActions.AllowedIdsListed (well-formedness),Passed,00:00:00.1525380,241436,1
KeezenGame.SwitchMadeBy (correctness),Passed,00:00:00.1522138,275610,1
CardOps.SwitchExchanges (correctness),Passed,00:00:00.1519263,278119,1
MejnGame.AllowedComplete (well-formedness),Passed,00:00:00.1518502,201068,1
CardOps.HomeMobility (well-formedness),Passed,00:00:00.1518307,236986,1
MejnGame.RunKeepsBoard (correctness),Passed,00:00:00.1503486,295845,1
KeezenBoard.RunKeepsGood (correctness),Passed,00:00:00.1478917,234272,1
CardOps.SplitSingle (well-formedness),Passed,00:00:00.1478696,262735,1
CardOps.SplitBlocked (well-formedness),Passed,00:00:00.1474618,361161,1
KeezenDeal.FirstSeatStep (correctness),Passed,00:00:00.1474245,315322,1
Rules.DeckFacts (correctness),Passed,00:00:00.1468180,84048,1
CardOps.SplitPair (well-formedness),Passed,00:00:00.1466491,221397,1
KeezenActions.ActionIdDecodes (correctness),Passed,00:00:00.1466112,285733,1
KeezenPaths.ForwardHomeHop (well-formedness),Passed,00:00:00.1464909,102074,1
CardOps.ChosenShape (correctness),Passed,00:00:00.1458670,247080,1
CardOps.SplitPairLegs (correctness),Passed,00:00:00.1453191,324818,1
KeezenBoard.CarryStaysHome (well-formedness),Passed,00:00:00.1452885,212569,1
CarryFinding.NoMainSplit (well-formedness),Passed,00:00:00.1448440,282710,1
CardOps.MainCollected (correctness),Passed,00:00:00.1444828,302244,1
KeezenActions.DecodeAt (correctness),Passed,00:00:00.1442182,298500,1
KeezenBoard.BlockedKeepsGood (well-formedness),Passed,00:00:00.1437124,225264,1
Cards.PlayConserves (correctness),Passed,00:00:00.1432713,380263,1
CardOps.ChosenShape (well-formedness),Passed,00:00:00.1431305,246959,1
KeezenPaths.ChainOnBoard (correctness),Passed,00:00:00.1422544,288264,1
MejnGame.OneWinner (well-formedness),Passed,00:00:00.1417765,76102,1
KeezenPaths.ForwardAtOwnJunction (correctness),Passed,00:00:00.1413381,210688,1
CardOps.StartHit (well-formedness),Passed,00:00:00.1411603,144402,1
MejnGame.MovesSound (correctness),Passed,00:00:00.1409875,249730,1
MejnPaths.PathAlongRoute (well-formedness),Passed,00:00:00.1405580,125167,1
KeezenBoard.SingleKeepsGood (correctness),Passed,00:00:00.1395451,232421,1
MejnPaths.MejnHopRules (well-formedness),Passed,00:00:00.1394975,64947,1
KeezenBoard.BlockedKeepsGood (correctness),Passed,00:00:00.1391573,365846,1
Moves.SendBack (correctness),Passed,00:00:00.1382356,175593,1
CardOps.BlockedByOwnMarble (well-formedness),Passed,00:00:00.1377360,748292,1
CarryFinding.CarryOnlyB0 (well-formedness),Passed,00:00:00.1372443,316218,1
MejnPaths.HomeRunPaths (correctness),Passed,00:00:00.1364909,164978,1
KeezenStep.InitColours (well-formedness),Passed,00:00:00.1361670,181375,1
MejnGame.MovesComplete (correctness),Passed,00:00:00.1359061,220918,1
CarryFinding.CarryWithB0 (well-formedness),Passed,00:00:00.1355756,261427,1
KeezenStep.DealKeepsCards (correctness),Passed,00:00:00.1353125,285026,1
CarryFinding.GreenHops (correctness),Passed,00:00:00.1341547,303712,1
KeezenActions.PositionMeaning (correctness),Passed,00:00:00.1336210,310984,1
KeezenPaths.ChainOnBoard (well-formedness),Passed,00:00:00.1332302,96808,1
MejnGame.ChoiceKinds (well-formedness),Passed,00:00:00.1329367,177578,1
Moves.ApplyMarbleMoves (well-formedness),Passed,00:00:00.1313113,67373,1
Moves.MarbleMoveKeepsBoard (well-formedness),Passed,00:00:00.1309763,112096,1
CarryFinding.NoBlockedSplit (correctness),Passed,00:00:00.1304469,276388,1
KeezenStep.Transition (well-formedness),Passed,00:00:00.1295564,251035,1
KeezenBoard.LeadLegFree (correctness),Passed,00:00:00.1295084,179611,1
CardOps.SwitchCollected (correctness),Passed,00:00:00.1286314,231658,1
MejnGame.AllowedChoices (correctness),Passed,00:00:00.1284411,238441,1
KeezenPaths.ForwardPathHomeIsOneWay (correctness),Passed,00:00:00.1265920,142891,1
KeezenBoard.SwitchOpKeepsGood (correctness),Passed,00:00:00.1261935,293922,1
CarryFinding.SceneKinds (correctness),Passed,00:00:00.1257849,473887,1
Cards.DealConserves (correctness),Passed,00:00:00.1256760,258995,1
KeezenPaths.HopFacts (correctness),Passed,00:00:00.1256052,132020,1
KeezenStep.DealStepCards (correctness),Passed,00:00:00.1252198,365960,1
KeezenStep.DealStep (well-formedness),Passed,00:00:00.1248430,212853,1
KeezenPaths.ForwardPathHomeIsOneWay (well-formedness),Passed,00:00:00.1244150,131963,1
KeezenBoard.ChoiceKeepsGood (correctness),Passed,00:00:00.1237058,294594,1
MejnGame.RunKeepsBoard (well-formedness),Passed,00:00:00.1234856,237653,1
CardOps.CarryForAsWritten (well-formedness),Passed,00:00:00.1233852,213492,1
KeezenBoard.PathEndField (correctness),Passed,00:00:00.1232213,142472,1
BoardState.WaitingMarble (well-formedness),Passed,00:00:00.1225094,244989,1
KeezenPaths.HomePathLeaves (correctness),Passed,00:00:00.1224212,185878,1
MejnGame.StepKeepsBoard (correctness),Passed,00:00:00.1214774,249942,1
CardOps.Choose (well-formedness),Passed,00:00:00.1211983,233226,1
CardOps.CarryForVsAsWritten (well-formedness),Passed,00:00:00.1211982,227643,1
KeezenBoard.LastNotWait (correctness),Passed,00:00:00.1200858,168519,1
CarryFinding.SevenOfHearts (well-formedness),Passed,00:00:00.1200850,3717,1
CardOps.SplitBlockedLegs (correctness),Passed,00:00:00.1200465,298823,1
MejnPaths.TrackWalks (correctness),Passed,00:00:00.1198551,150225,1
KeezenPaths.PathOnBoard (well-formedness),Passed,00:00:00.1195464,117020,1
KeezenDeal.DealFromSeat (correctness),Passed,00:00:00.1194458,439160,1
Layout.HomeListExact (correctness),Passed,00:00:00.1185432,888453,1
KeezenBoard.PlayTwo (correctness),Passed,00:00:00.1184118,193078,1
CarryFinding.PenStuck (correctness),Passed,00:00:00.1173623,272692,1
CarryFinding.HomeFull (well-formedness),Passed,00:00:00.1156964,166607,1
KeezenStep.InitColours (correctness),Passed,00:00:00.1156451,273188,1
KeezenPaths.KeezenChainRules (well-formedness),Passed,00:00:00.1139938,123714,1
MejnPaths.TrackPaths (correctness),Passed,00:00:00.1129614,129111,1
KeezenBoard.NeighbourNotWait (correctness),Passed,00:00:00.1129540,450348,1
KeezenPaths.PathLeaves (correctness),Passed,00:00:00.1129119,145818,1
CardOps.ChooseShape (well-formedness),Passed,00:00:00.1128972,247506,1
KeezenPaths.HopRules (correctness),Passed,00:00:00.1124579,80351,1
KeezenActions.PathAt (well-formedness),Passed,00:00:00.1122511,25786,1
KeezenDeal.LaterSeatStep (well-formedness),Passed,00:00:00.1114642,83517,1
Rules.SuitPosOrder (well-formedness),Passed,00:00:00.1113712,13618,1
KeezenPaths.RingChain (correctness),Passed,00:00:00.1111415,197734,1
CardOps.RunFor (well-formedness),Passed,00:00:00.1108274,230428,1
KeezenStep.InitCardsDealt (well-formedness),Passed,00:00:00.1105155,194052,1
KeezenPaths.HopFacts (well-formedness),Passed,00:00:00.1101300,99910,1
MejnPaths.HomeRunPaths (well-formedness),Passed,00:00:00.1092783,129999,1
KeezenStep.DealStepCards (well-formedness),Passed,00:00:00.1090833,128610,1
KeezenBoard.StartKeepsGood (correctness),Passed,00:00:00.1088521,199231,1
MejnGame.AllowedSound (well-formedness),Passed,00:00:00.1084796,211778,1
KeezenPaths.HomeIsOneWay (correctness),Passed,00:00:00.1082467,123223,1
CardOps.Choices (well-formedness),Passed,00:00:00.1080740,163105,1
KeezenStep.DealStepOk (correctness),Passed,00:00:00.1079989,229949,1
KeezenStep.PlayKeepsColours (well-formedness),Passed,00:00:00.1077805,153808,1
Paths.WalkIsChain (correctness),Passed,00:00:00.1072848,141324,1
CardOps.PairOrBlocked (well-formedness),Passed,00:00:00.1071727,223267,1
CardOps.CarryCollected (well-formedness),Passed,00:00:00.1071111,227639,1
Cards.Shuffle (well-formedness),Passed,00:00:00.1066748,184407,1
KeezenBoard.StartKeepsGood (well-formedness),Passed,00:00:00.1061809,141487,1
KeezenPaths.PathOnBoard (correctness),Passed,00:00:00.1058487,134009,1
BoardState.WaitHeadIsLowest (correctness),Passed,00:00:00.1054762,218739,1
KeezenBoard.PairKeepsGood (well-formedness),Passed,00:00:00.1051182,214756,1
MejnGame.ChoiceOf (well-formedness),Passed,00:00:00.1049154,172806,1
CardOps.CarryOverShape (well-formedness),Passed,00:00:00.1045315,244854,1
MejnPaths.TrackWalks (well-formedness),Passed,00:00:00.1044782,106166,1
MejnGame.ChoiceFacts (correctness),Passed,00:00:00.1038899,205081,1
KeezenBoard.PathEndField (well-formedness),Passed,00:00:00.1034278,135621,1
BoardState.InitialBoardFacts (correctness),Passed,00:00:00.1030198,300670,1
KeezenActions.RawAction (well-formedness),Passed,00:00:00.1024370,170594,1
KeezenStep.PlayKeepsColours (correctness),Passed,00:00:00.1023606,190241,1
KeezenActions.MarbleCode (well-formedness),Passed,00:00:00.1018671,156368,1
KeezenGame.RewardTotal (correctness),Passed,00:00:00.1013322,281203,1
CardOps.FirstAway (well-formedness),Passed,00:00:00.1011253,119234,1
KeezenPaths.FourBackFromStart (well-formedness),Passed,00:00:00.1010080,121203,1
KeezenDeal.DealFromConserves (correctness),Passed,00:00:00.1007901,222834,1
KeezenStep.DealKeepsCards (well-formedness),Passed,00:00:00.1003003,149206,1
MejnPaths.HomeEnds (well-formedness),Passed,00:00:00.0998207,81403,1
KeezenPaths.HopAt (correctness),Passed,00:00:00.0995095,107340,1
MejnPaths.TrackPaths (well-formedness),Passed,00:00:00.0993458,135355,1
KeezenBoard.SingleKeepsGood (well-formedness),Passed,00:00:00.0975206,201774,1
BoardState.MarblesOnKind (well-formedness),Passed,00:00:00.0974350,129557,1
MejnPaths.TrackHop (correctness),Passed,00:00:00.0973377,227139,1
KeezenStep.PlayKeepsCards (correctness),Passed,00:00:00.0971251,123626,1
KeezenPaths.PathLeaves (well-formedness),Passed,00:00:00.0967019,122454,1
MejnPaths.HomeWalks (correctness),Passed,00:00:00.0966804,131334,1
CardOps.SplitPairLegs (well-formedness),Passed,00:00:00.0958188,222572,1
MejnGame.InitialNotOver (correctness),Passed,00:00:00.0941626,191625,1
CardOps.ChoicesCollected (correctness),Passed,00:00:00.0937256,124530,1
BoardState.FullPenHasNoFreeField (correctness),Passed,00:00:00.0931858,222911,1
CarryFinding.SceneInjective (correctness),Passed,00:00:00.0928318,251153,1
KeezenStep.InitDealt (well-formedness),Passed,00:00:00.0928207,193356,1
BoardState.FullPenHoldsAll (correctness),Passed,00:00:00.0924165,151023,1
KeezenBoard.LastNotWait (well-formedness),Passed,00:00:00.0920525,126780,1
CardOps.SwitchMoves (well-formedness),Passed,00:00:00.0916967,193604,1
MejnActions.TableListsIds (well-formedness),Passed,00:00:00.0916241,46161,1
KeezenGame.RewardTotal (well-formedness),Passed,00:00:00.0914597,111051,1
MejnGame.InitGame (well-formedness),Passed,00:00:00.0911903,129464,1
KeezenPaths.HomeIsOneWay (well-formedness),Passed,00:00:00.0907307,102526,1
Rules.CardOpsOf (well-formedness),Passed,00:00:00.0902617,183606,1
CarryFinding.LeadLegPlayed (correctness),Passed,00:00:00.0902570,150055,1
BoardState.PutOnFreeWaitField (correctness),Passed,00:00:00.0900526,200278,1
CarryFinding.HomeFull (correctness),Passed,00:00:00.0896776,216136,1
KeezenPaths.BackHopOnTrack (correctness),Passed,00:00:00.0892004,159960,1
KeezenPaths.BackFromStart (correctness),Passed,00:00:00.0886651,132076,1
Cards.FlattenUpdate (correctness),Passed,00:00:00.0885846,693593,1
CarryFinding.SecondLegHits (correctness),Passed,00:00:00.0884547,171982,1
KeezenStep.ScheduleSums (correctness),Passed,00:00:00.0882961,146834,1
Paths.ChainIsWalk (correctness),Passed,00:00:00.0878499,328024,1
KeezenPaths.BackwardOntoOwnStart (correctness),Passed,00:00:00.0873063,160741,1
CardOps.AfterMove (well-formedness),Passed,00:00:00.0872954,149242,1
Paths.PathFrom (well-formedness),Passed,00:00:00.0866255,123956,1
KeezenPaths.WaitIsStuck (well-formedness),Passed,00:00:00.0864546,117941,1
CarryFinding.PlayHit (correctness),Passed,00:00:00.0864142,135571,1
KeezenStep.Restock (well-formedness),Passed,00:00:00.0862959,76009,1
CardOps.PutKeepsPens (correctness),Passed,00:00:00.0855274,109732,1
KeezenDeal.LaterSeatStep (correctness),Passed,00:00:00.0854181,172950,1
KeezenActions.BodyOfCode (correctness),Passed,00:00:00.0853147,150670,1
KeezenPaths.PathOffHome (correctness),Passed,00:00:00.0851446,136917,1
BoardState.ResetMarbles (well-formedness),Passed,00:00:00.0849335,214727,1
CardOps.CarryLead (well-formedness),Passed,00:00:00.0848346,189539,1
KeezenStep.StockSchedule (well-formedness),Passed,00:00:00.0846234,77340,1
Cards.ShuffleKeys (well-formedness),Passed,00:00:00.0845389,226916,1
BoardState.FinishedIffAllHome (correctness),Passed,00:00:00.0845309,202131,1
KeezenPaths.ForwardAtOwnJunction (well-formedness),Passed,00:00:00.0844529,86004,1
CarryFinding.PenFree (correctness),Passed,00:00:00.0842181,173088,1
CarryFinding.SceneField (well-formedness),Passed,00:00:00.0840080,242496,1
MejnPaths.JunctionHop (correctness),Passed,00:00:00.0838485,128478,1
KeezenDeal.DealCardsShares (well-formedness),Passed,00:00:00.0836397,110736,1
MejnPaths.HomeEnds (correctness),Passed,00:00:00.0834984,138322,1
CardOps.SwitchCollected (well-formedness),Passed,00:00:00.0833535,132056,1
KeezenActions.RestDecoded (correctness),Passed,00:00:00.0833522,193908,1
MejnPaths.HomeRun (correctness),Passed,00:00:00.0824247,226527,1
CardOps.SwitchWith (well-formedness),Passed,00:00:00.0823866,105847,1
KeezenDeal.DealCardsShares (correctness),Passed,00:00:00.0819032,265745,1
CardOps.StartHit (correctness),Passed,00:00:00.0817031,175107,1
KeezenBoard.LegsKeepGood (well-formedness),Passed,00:00:00.0816002,205658,1
MejnPaths.HomeWalks (well-formedness),Passed,00:00:00.0810984,103946,1
KeezenPaths.FirstHop (well-formedness),Passed,00:00:00.0806921,123806,1
KeezenPaths.FirstHop (correctness),Passed,00:00:00.0806745,150673,1
KeezenBoard.LeadLegFree (well-formedness),Passed,00:00:00.0804324,152392,1
CarryFinding.PenFree (well-formedness),Passed,00:00:00.0798506,76946,1
Cards.ValueOfRank (well-formedness),Passed,00:00:00.0798071,195187,1
KeezenBoard.RunKeepsGood (well-formedness),Passed,00:00:00.0797822,197601,1
KeezenPaths.RingPathLeaves (correctness),Passed,00:00:00.0796421,143436,1
CardOps.SwitchMovesSpec (correctness),Passed,00:00:00.0790019,209181,1
BoardState.Reset (well-formedness),Passed,00:00:00.0782999,163796,1
KeezenPaths.OwnerBlocksStart (well-formedness),Passed,00:00:00.0775762,79952,1
KeezenActions.Slots (well-formedness),Passed,00:00:00.0769470,236538,1
MejnPaths.RouteHopJunction (correctness),Passed,00:00:00.0766156,293041,1
KeezenPaths.PrevOffHome (correctness),Passed,00:00:00.0763490,260757,1
KeezenPaths.BackFromJunction (well-formedness),Passed,00:00:00.0757205,80839,1
CarryFinding.PlayHit (well-formedness),Passed,00:00:00.0756813,67812,1
Paths.WalkIsChain (well-formedness),Passed,00:00:00.0748036,29409,1
KeezenBoard.PathLegKeepsGood (well-formedness),Passed,00:00:00.0745776,195493,1
KeezenActions.TailMeaning (well-formedness),Passed,00:00:00.0742548,182752,1
Layout.AdjacencyShape (correctness),Passed,00:00:00.0742418,455806,1
Seats.PartnerSeat (well-formedness),Passed,00:00:00.0734419,13115,1
KeezenPaths.RingPathLeaves (well-formedness),Passed,00:00:00.0730493,128385,1
KeezenPaths.HomePathLeaves (well-formedness),Passed,00:00:00.0730191,128652,1
Layout.NextHasPrev (correctness),Passed,00:00:00.0728983,532729,1
MejnGame.StartKeepsBoard (correctness),Passed,00:00:00.0724791,136768,1
KeezenBoard.PathEnd (well-formedness),Passed,00:00:00.0716679,142312,1
Seats.NextThenPrev (correctness),Passed,00:00:00.0705244,464346,1
CarryFinding.Lead (well-formedness),Passed,00:00:00.0705166,166246,1
KeezenActions.DecodeEncode (correctness),Passed,00:00:00.0702811,214008,1
CardOps.BlockerIsOther (well-formedness),Passed,00:00:00.0700607,156611,1
MejnActions.TableMiddle (correctness),Passed,00:00:00.0697905,316542,1
Layout.WaitListExact (correctness),Passed,00:00:00.0691889,679846,1
KeezenActions.BodyDecoded (correctness),Passed,00:00:00.0681894,82421,1
KeezenPaths.BackHopOnTrack (well-formedness),Passed,00:00:00.0681123,77045,1
BoardState.Put (well-formedness),Passed,00:00:00.0669260,126517,1
Cards.PlayShift (correctness),Passed,00:00:00.0669202,214249,1
KeezenPaths.HopAt (well-formedness),Passed,00:00:00.0666040,96534,1
BoardState.FullPenHoldsAll (well-formedness),Passed,00:00:00.0664850,52717,1
Layout.MejnBoardFacts (correctness),Passed,00:00:00.0661509,215913,1
KeezenPaths.WalkFourBack (correctness),Passed,00:00:00.0652876,159081,1
MejnActions.RunRoundTrip (correctness),Passed,00:00:00.0652487,189367,1
KeezenPaths.HomeOnlyAtEnd (well-formedness),Passed,00:00:00.0641322,121684,1
MejnPaths.HomeHop (well-formedness),Passed,00:00:00.0636014,79470,1
KeezenPaths.BackFromJunction (correctness),Passed,00:00:00.0630299,113559,1
MejnActions.TableBack (correctness),Passed,00:00:00.0629515,291975,1
KeezenBoard.PathEnd (correctness),Passed,00:00:00.0629489,153477,1
KeezenPaths.HopRules (well-formedness),Passed,00:00:00.0628045,76007,1
KeezenDeal.DealFrom (well-formedness),Passed,00:00:00.0627529,132090,1
Layout.StartFieldUnique (correctness),Passed,00:00:00.0618315,43724,1
Rules.ValuePosOrder (well-formedness),Passed,00:00:00.0616956,23110,1
KeezenBoard.SwitchKeepsGood (well-formedness),Passed,00:00:00.0614664,113992,1
KeezenActions.Decode (well-formedness),Passed,00:00:00.0607884,61956,1
KeezenGame.StartMadeBy (correctness),Passed,00:00:00.0607642,173664,1
MejnActions.TableListsIds (correctness),Passed,00:00:00.0605648,201677,1
KeezenPaths.RingChainLeaves (correctness),Passed,00:00:00.0604497,152178,1
KeezenPaths.HomeNext (correctness),Passed,00:00:00.0602398,138687,1
KeezenPaths.RingChainLeaves (well-formedness),Passed,00:00:00.0598597,103650,1
Rules.SuitPosOrder (correctness),Passed,00:00:00.0598052,20189,1
KeezenActions.ActionId (well-formedness),Passed,00:00:00.0597407,137172,1
Rules.OpsByRank (correctness),Passed,00:00:00.0595494,133399,1
CardOps.SwitchExchanges (well-formedness),Passed,00:00:00.0591404,82903,1
Paths.WalkConcat (correctness),Passed,00:00:00.0583872,298954,1
KeezenPaths.RingChain (well-formedness),Passed,00:00:00.0579861,108510,1
MejnPaths.RouteHopLast (correctness),Passed,00:00:00.0579120,180858,1
KeezenStep.PlayKeepsCards (well-formedness),Passed,00:00:00.0575235,112145,1
MejnPaths.Route (well-formedness),Passed,00:00:00.0573706,70711,1
KeezenPaths.BackFromStartHops (correctness),Passed,00:00:00.0564897,82838,1
CardOps.AfterMoveIsPlay (well-formedness),Passed,00:00:00.0562972,91190,1
MejnActions.TableEntryDecodes (correctness),Passed,00:00:00.0561906,83535,1
MejnPaths.MejnHopRules (correctness),Passed,00:00:00.0559379,71913,1
BoardState.PutFacts (correctness),Passed,00:00:00.0558805,122175,1
CarryFinding.SceneGood (correctness),Passed,00:00:00.0556930,76296,1
Rules.ScheduleUsesDeck (correctness),Passed,00:00:00.0551320,160886,1
KeezenStep.StockSchedule (correctness),Passed,00:00:00.0539337,109708,1
KeezenPaths.PathOffHome (well-formedness),Passed,00:00:00.0538853,126245,1
KeezenStep.DealStepOk (well-formedness),Passed,00:00:00.0532772,115403,1
Paths.FirstAllowed (well-formedness),Passed,00:00:00.0532105,108763,1
KeezenPaths.WalkFourBack (well-formedness),Passed,00:00:00.0526295,100842,1
CarryFinding.SceneHomes (correctness),Passed,00:00:00.0522628,160858,1
KeezenBoard.LegKeepsGood (well-formedness),Passed,00:00:00.0520086,110280,1
CarryFinding.PlayQuiet (correctness),Passed,00:00:00.0510307,99306,1
Layout.FieldListsIncreasing (correctness),Passed,00:00:00.0508993,150991,1
Paths.WalkPrefix (correctness),Passed,00:00:00.0501871,135980,1
KeezenDeal.ReceivedFirst (correctness),Passed,00:00:00.0495577,229211,1
KeezenPaths.RingHop (correctness),Passed,00:00:00.0494402,73058,1
BoardState.EmptyWaitField (well-formedness),Passed,00:00:00.0492684,269995,1
KeezenPaths.RingHopOver (correctness),Passed,00:00:00.0492629,133373,1
KeezenActions.CellNextLast (correctness),Passed,00:00:00.0492463,72634,1
MejnPaths.RouteHopTrack (correctness),Passed,00:00:00.0491923,84203,1
CardOps.LenChoices (well-formedness),Passed,00:00:00.0491761,85452,1
KeezenGame.AddsDistinct (correctness),Passed,00:00:00.0491082,34271,1
Rules.DeckFacts (well-formedness),Passed,00:00:00.0489338,64833,1
Layout.PrevHasNext (correctness),Passed,00:00:00.0483639,385194,1
KeezenGame.AddsEarliest (correctness),Passed,00:00:00.0481080,103196,1
Paths.HopLink (correctness),Passed,00:00:00.0480157,100957,1
CardOps.TwoLegs (well-formedness),Passed,00:00:00.0480150,99016,1
CarryFinding.HomeCount (well-formedness),Passed,00:00:00.0474534,86885,1
MejnPaths.RouteHopHome (correctness),Passed,00:00:00.0470637,85352,1
Seats.JoinTeam (well-formedness),Passed,00:00:00.0466832,57273,1
MejnPaths.RouteHop (correctness),Passed,00:00:00.0465314,64003,1
CardOps.SamePens (correctness),Passed,00:00:00.0463554,94487,1
KeezenActions.EncodeDecode (correctness),Passed,00:00:00.0461038,98633,1
KeezenDeal.DealFromConserves (well-formedness),Passed,00:00:00.0457087,55916,1
KeezenPaths.BackFromStartHops (well-formedness),Passed,00:00:00.0456703,80839,1
Moves.HitLands (well-formedness),Passed,00:00:00.0454176,103812,1
KeezenPaths.BackFromStart (well-formedness),Passed,00:00:00.0451414,78141,1
Layout.StartFields (well-formedness),Passed,00:00:00.0449030,32726,1
MejnGame.InitialPens (correctness),Passed,00:00:00.0448024,103559,1
Rules.ValuePosOrder (correctness),Passed,00:00:00.0445994,133516,1
KeezenActions.PathStep (correctness),Passed,00:00:00.0443274,137634,1
KeezenStep.ScheduleSums (well-formedness),Passed,00:00:00.0441818,68308,1
KeezenActions.SlotsDistinct (correctness),Passed,00:00:00.0439222,72877,1
KeezenDeal.DealFromUnroll (correctness),Passed,00:00:00.0437641,66311,1
KeezenActions.PositionsDistinct (correctness),Passed,00:00:00.0436257,75380,1
KeezenBoard.InitialBoardGood (correctness),Passed,00:00:00.0433334,73056,1
CarryFinding.GreenHops (well-formedness),Passed,00:00:00.0432541,80681,1
Rules.InitializeCards (well-formedness),Passed,00:00:00.0431895,97695,1
Cards.ResetCards (well-formedness),Passed,00:00:00.0430277,123397,1
Moves.HitAlwaysLands (well-formedness),Passed,00:00:00.0428674,65869,1
BoardState.ResetStep (correctness),Passed,00:00:00.0428371,125501,1
Layout.WaitFields (well-formedness),Passed,00:00:00.0425181,34336,1
KeezenStep.CardsDealt (well-formedness),Passed,00:00:00.0424391,77322,1
Paths.FullChainIsWalk (correctness),Passed,00:00:00.0423686,111109,1
Paths.Hop (well-formedness),Passed,00:00:00.0415911,95857,1
MejnPaths.SixFrom41 (correctness),Passed,00:00:00.0414576,78889,1
BoardState.FullPenHasNoFreeField (well-formedness),Passed,00:00:00.0414231,57121,1
CarryFinding.FiveHops (correctness),Passed,00:00:00.0412464,66352,1
KeezenActions.PositionOrder (well-formedness),Passed,00:00:00.0412444,69402,1
MejnActions.RawAction (well-formedness),Passed,00:00:00.0410808,53041,1
KeezenActions.TrackStep (correctness),Passed,00:00:00.0407781,234342,1
Paths.HopLink (well-formedness),Passed,00:00:00.0405444,96981,1
Paths.ShiftChain (correctness),Passed,00:00:00.0404827,44619,1
KeezenActions.SwitchTail (well-formedness),Passed,00:00:00.0400767,69304,1
KeezenActions.IdJoin (correctness),Passed,00:00:00.0396971,156057,1
BoardState.OnKindOnWellFormed (well-formedness),Passed,00:00:00.0396062,49751,1
BoardState.ResetStep (well-formedness),Passed,00:00:00.0390328,74576,1
KeezenActions.PathShape (correctness),Passed,00:00:00.0390245,109623,1
BoardState.FreeWaitFieldExists (correctness),Passed,00:00:00.0387121,65902,1
KeezenGame.AddsCovers (correctness),Passed,00:00:00.0385147,74084,1
MejnActions.DecodeEncode (correctness),Passed,00:00:00.0384873,51587,1
KeezenPaths.RingHopBack (correctness),Passed,00:00:00.0383323,181393,1
Moves.HitMoves (well-formedness),Passed,00:00:00.0382282,65624,1
BoardState.FieldOf (well-formedness),Passed,00:00:00.0381867,62942,1
Seats.PrevSeat (well-formedness),Passed,00:00:00.0380310,198591,1
KeezenActions.PositionOrder (correctness),Passed,00:00:00.0380265,82597,1
Cards.PlayConserves (well-formedness),Passed,00:00:00.0379726,53192,1
CardOps.SwitchOf (well-formedness),Passed,00:00:00.0379057,84801,1
MejnPaths.RouteHopHome (well-formedness),Passed,00:00:00.0375831,35015,1
Moves.HitAlwaysLands (correctness),Passed,00:00:00.0375546,84344,1
KeezenActions.IdParts (well-formedness),Passed,00:00:00.0374771,73726,1
Rules.DeckDistinct (correctness),Passed,00:00:00.0374058,56446,1
CardOps.ChoicesFor (well-formedness),Passed,00:00:00.0373435,97320,1
KeezenDeal.DealCards (well-formedness),Passed,00:00:00.0372714,67343,1
KeezenPaths.TrackBefore (well-formedness),Passed,00:00:00.0371365,74287,1
MejnPaths.HomeRun (well-formedness),Passed,00:00:00.0371342,26218,1
Common.Collect (well-formedness),Passed,00:00:00.0371218,65751,1
CardOps.PutKeepsPens (well-formedness),Passed,00:00:00.0368479,63622,1
KeezenDeal.DealFromUnroll (well-formedness),Passed,00:00:00.0368205,53394,1
CardOps.StartOpen (well-formedness),Passed,00:00:00.0368048,36336,1
Rules.ScheduleUsesDeck (well-formedness),Passed,00:00:00.0367062,60041,1
MejnActions.StartRoundTrip (correctness),Passed,00:00:00.0365984,67007,1
KeezenActions.BodyOfCode (well-formedness),Passed,00:00:00.0365962,65125,1
KeezenActions.IdParts (correctness),Passed,00:00:00.0362819,71152,1
KeezenGame.Dedup (well-formedness),Passed,00:00:00.0362350,97390,1
BoardState.OnKindOnWellFormed (correctness),Passed,00:00:00.0361372,57450,1
KeezenPaths.RingHopOn (correctness),Passed,00:00:00.0360719,187114,1
KeezenActions.EncodeParts (well-formedness),Passed,00:00:00.0359067,46575,1
BoardState.WaitHeadIsLowest (well-formedness),Passed,00:00:00.0358646,84813,1
KeezenDeal.DealCardOthers (correctness),Passed,00:00:00.0355944,46319,1
Layout.StartListExact (correctness),Passed,00:00:00.0355721,135304,1
Moves.ApplyHits (well-formedness),Passed,00:00:00.0352720,57634,1
CarryFinding.Boxed (well-formedness),Passed,00:00:00.0351382,104698,1
KeezenPaths.FourHops (correctness),Passed,00:00:00.0350050,58737,1
KeezenDeal.DealFromSeat (well-formedness),Passed,00:00:00.0349964,56394,1
MejnGame.StartOf (well-formedness),Passed,00:00:00.0347806,58482,1
KeezenPaths.RingHop (well-formedness),Passed,00:00:00.0347805,52351,1
MejnPaths.RouteHopTrack (well-formedness),Passed,00:00:00.0344173,34723,1
KeezenActions.EncodeDecode (well-formedness),Passed,00:00:00.0344116,72269,1
KeezenActions.CellNextJunction (well-formedness),Passed,00:00:00.0343458,27519,1
KeezenGame.IsRoundOver (well-formedness),Passed,00:00:00.0342146,48225,1
KeezenBoard.RunBound (correctness),Passed,00:00:00.0339585,59502,1
MejnPaths.RouteHop (well-formedness),Passed,00:00:00.0338123,36539,1
CardOps.SplitShape (well-formedness),Passed,00:00:00.0337947,58694,1
KeezenActions.PathShape (well-formedness),Passed,00:00:00.0336376,57706,1
Common.ZFill2 (well-formedness),Passed,00:00:00.0336113,90277,1
Common.FlatMap (well-formedness),Passed,00:00:00.0335870,37093,1
KeezenDeal.DealStepShares (correctness),Passed,00:00:00.0334899,253530,1
Moves.MostlyWellFormed (well-formedness),Passed,00:00:00.0332061,53494,1
Cards.PlayCards (well-formedness),Passed,00:00:00.0332043,116118,1
CardOps.FirstHomeOf (well-formedness),Passed,00:00:00.0331844,54497,1
MejnPaths.TwoFrom40 (correctness),Passed,00:00:00.0327444,42301,1
Paths.KeezenAllowed (well-formedness),Passed,00:00:00.0327075,55899,1
MejnPaths.RouteAt (well-formedness),Passed,00:00:00.0325259,43277,1
KeezenActions.TailRoundTrip (correctness),Passed,00:00:00.0324832,76755,1
KeezenDeal.FirstSeatStep (well-formedness),Passed,00:00:00.0323946,75415,1
Moves.PutKeepsBoard (well-formedness),Passed,00:00:00.0323321,76421,1
KeezenStep.Switches (well-formedness),Passed,00:00:00.0322494,65558,1
Cards.RemoveFirst (well-formedness),Passed,00:00:00.0322207,70048,1
KeezenActions.PathRoundTrip (well-formedness),Passed,00:00:00.0321837,33801,1
Common.Row (well-formedness),Passed,00:00:00.0320350,30931,1
Common.MinExists (correctness),Passed,00:00:00.0318813,35094,1
KeezenActions.TailDecoded (correctness),Passed,00:00:00.0317657,85248,1
Cards.RankRoundTrip (correctness),Passed,00:00:00.0315197,62141,1
KeezenGame.KeepsCovers (correctness),Passed,00:00:00.0313485,61083,1
MejnPaths.RouteHopLast (well-formedness),Passed,00:00:00.0313427,33968,1
KeezenActions.CellIndexInverse (correctness),Passed,00:00:00.0312399,140807,1
KeezenActions.PositionMeaning (well-formedness),Passed,00:00:00.0311200,72856,1
KeezenActions.RestDecoded (well-formedness),Passed,00:00:00.0310867,70916,1
Cards.InitialCardState (well-formedness),Passed,00:00:00.0310377,61211,1
Cards.PlayShift (well-formedness),Passed,00:00:00.0307774,30553,1
BoardState.InitialBoardFacts (well-formedness),Passed,00:00:00.0307596,67305,1
KeezenActions.PathRoundTrip (correctness),Passed,00:00:00.0305563,34254,1
CarryFinding.SceneHomes (well-formedness),Passed,00:00:00.0305119,33787,1
KeezenGame.KeepsEarliest (correctness),Passed,00:00:00.0304910,75249,1
Layout.MejnBoardFacts (well-formedness),Passed,00:00:00.0304165,80490,1
BoardState.WellFormed (well-formedness),Passed,00:00:00.0300187,50703,1
MejnPaths.RouteHopJunction (well-formedness),Passed,00:00:00.0299077,36763,1
KeezenActions.CellRoundTrip (correctness),Passed,00:00:00.0298070,47314,1
KeezenActions.EncodeParts (correctness),Passed,00:00:00.0297596,62422,1
MejnActions.IdInTable (well-formedness),Passed,00:00:00.0297045,53942,1
KeezenActions.BodyDecoded (well-formedness),Passed,00:00:00.0295256,66653,1
Common.NatStr (well-formedness),Passed,00:00:00.0295022,32966,1
Layout.FieldListsIncreasing (well-formedness),Passed,00:00:00.0292201,53381,1
Layout.Decompose (correctness),Passed,00:00:00.0285315,38958,1
MejnActions.TableFront (well-formedness),Passed,00:00:00.0284756,37038,1
MejnPaths.SixFrom41 (well-formedness),Passed,00:00:00.0284581,25537,1
KeezenActions.PathIndexInverse (correctness),Passed,00:00:00.0282197,44390,1
MejnPaths.TwoFrom40 (well-formedness),Passed,00:00:00.0281314,23705,1
Paths.ChainIsWalk (well-formedness),Passed,00:00:00.0281094,29821,1
KeezenDeal.DealStepShares (well-formedness),Passed,00:00:00.0280424,18093,1
Layout.NeighboursAreFields (correctness),Passed,00:00:00.0278383,130157,1
BoardState.MarbleIdx (well-formedness),Passed,00:00:00.0278353,3673,1
KeezenStep.OwnColours (well-formedness),Passed,00:00:00.0276034,5215,1
KeezenActions.Slot (well-formedness),Passed,00:00:00.0274265,60977,1
KeezenActions.SplitTail (well-formedness),Passed,00:00:00.0274060,65443,1
Cards.DealCard (well-formedness),Passed,00:00:00.0271125,87529,1
BoardState.InitialBoard (well-formedness),Passed,00:00:00.0269342,72702,1
MejnActions.TableEntryDecodes (well-formedness),Passed,00:00:00.0268663,55820,1
Common.Pairs (well-formedness),Passed,00:00:00.0266572,32370,1
Cards.ResetCount (correctness),Passed,00:00:00.0265209,51589,1
MejnActions.TableEnd (correctness),Passed,00:00:00.0264501,74043,1
MejnGame.InitialPens (well-formedness),Passed,00:00:00.0260317,58988,1
KeezenActions.MarblePosition (well-formedness),Passed,00:00:00.0257098,72717,1
KeezenStep.StockLeft (well-formedness),Passed,00:00:00.0255881,60333,1
BoardState.FinishedIffAllHome (well-formedness),Passed,00:00:00.0255073,56789,1
KeezenActions.PathCell (well-formedness),Passed,00:00:00.0253386,33105,1
Rules.DeckDistinct (well-formedness),Passed,00:00:00.0252046,56683,1
KeezenGame.AddsEarliest (well-formedness),Passed,00:00:00.0248878,34809,1
KeezenDeal.Received (well-formedness),Passed,00:00:00.0248166,20474,1
Cards.FlattenEmpty (correctness),Passed,00:00:00.0247873,37291,1
Seats.StandardTeamsPartner (well-formedness),Passed,00:00:00.0244214,44991,1
Cards.SuitValue (well-formedness),Passed,00:00:00.0244119,11080,1
Layout.AdjacencyShape (well-formedness),Passed,00:00:00.0243063,43063,1
Rules.SimpleDiffersOnlyInSeven (correctness),Passed,00:00:00.0242803,57512,1
CardOps.OwnHomeAfter (well-formedness),Passed,00:00:00.0242485,54290,1
MejnActions.IdInTable (correctness),Passed,00:00:00.0242199,53590,1
KeezenGame.NoneBefore (well-formedness),Passed,00:00:00.0241875,20806,1
KeezenDeal.ReceivedLater (correctness),Passed,00:00:00.0241164,60616,1
Layout.LastHomeField (well-formedness),Passed,00:00:00.0239641,41826,1
Rules.SuitPos (well-formedness),Passed,00:00:00.0238929,22230,1
Layout.HomeFields (well-formedness),Passed,00:00:00.0237651,32655,1
KeezenDeal.DealCardOthers (well-formedness),Passed,00:00:00.0237249,51011,1
BoardState.MarblesOnKindHead (well-formedness),Passed,00:00:00.0235852,51291,1
Common.Sum (well-formedness),Passed,00:00:00.0235217,12182,1
KeezenBoard.HomesOwned (well-formedness),Passed,00:00:00.0235161,33450,1
BoardState.WaitOccupant (well-formedness),Passed,00:00:00.0231648,46882,1
CardOps.SamePens (well-formedness),Passed,00:00:00.0231461,39135,1
BoardState.FieldOfOnInjective (correctness),Passed,00:00:00.0230119,47558,1
MejnActions.EncodeDecode (well-formedness),Passed,00:00:00.0226193,43543,1
Rules.DeckIndex (well-formedness),Passed,00:00:00.0225937,34873,1
KeezenDeal.Shares (well-formedness),Passed,00:00:00.0225769,6656,1
KeezenGame.FlattenNil (correctness),Passed,00:00:00.0221223,39043,1
Cards.ShuffleStep (correctness),Passed,00:00:00.0217197,36969,1
KeezenActions.PathStep (well-formedness),Passed,00:00:00.0215053,34323,1
KeezenActions.AheadZero (correctness),Passed,00:00:00.0213829,35290,1
KeezenDeal.Dist (well-formedness),Passed,00:00:00.0211910,45292,1
Cards.Rank (well-formedness),Passed,00:00:00.0210909,38356,1
Cards.PermutationTail (correctness),Passed,00:00:00.0209265,55608,1
Seats.NextSeat (well-formedness),Passed,00:00:00.0209230,66144,1
Rules.ValuePos (well-formedness),Passed,00:00:00.0207683,55097,1
KeezenActions.IdJoin (well-formedness),Passed,00:00:00.0206915,35988,1
Cards.CountIsPoolSize (correctness),Passed,00:00:00.0206268,28443,1
KeezenDeal.ReceivedFirst (well-formedness),Passed,00:00:00.0202707,25948,1
CarryFinding.TwoHopsThenStop (correctness),Passed,00:00:00.0202159,44646,1
KeezenActions.AheadOrder (correctness),Passed,00:00:00.0201537,116820,1
Seats.TeamMate (well-formedness),Passed,00:00:00.0201467,36603,1
Common.StepBack (well-formedness),Passed,00:00:00.0201180,24781,1
MejnActions.TableIndex (well-formedness),Passed,00:00:00.0200698,140315,1
KeezenGame.FirstAt (well-formedness),Passed,00:00:00.0200415,27095,1
KeezenActions.CellNextTrack (correctness),Passed,00:00:00.0199460,52338,1
BoardState.OnKind (well-formedness),Passed,00:00:00.0198337,36361,1
Seats.TeamMateOfTeamMate (correctness),Passed,00:00:00.0196923,22281,1
KeezenActions.PathLength (well-formedness),Passed,00:00:00.0195866,3754,1
MejnActions.EncodeInjective (correctness),Passed,00:00:00.0195409,50246,1
BoardState.PutFacts (well-formedness),Passed,00:00:00.0194325,38995,1
Common.PaddedDigits (correctness),Passed,00:00:00.0193871,47471,1
KeezenActions.CellRoundTrip (well-formedness),Passed,00:00:00.0192316,20709,1
MejnActions.TableMiddle (well-formedness),Passed,00:00:00.0192078,37483,1
MejnActions.Decode (well-formedness),Passed,00:00:00.0191731,37767,1
Common.DigitRoundTrip (correctness),Passed,00:00:00.0191115,37933,1
KeezenActions.DecodeBody (well-formedness),Passed,00:00:00.0191058,49251,1
Cards.DealConserves (well-formedness),Passed,00:00:00.0190463,50735,1
Rules.OpsByRank (well-formedness),Passed,00:00:00.0188002,38164,1
Cards.PermutationTail (well-formedness),Passed,00:00:00.0186357,14026,1
Cards.EmptyHands (well-formedness),Passed,00:00:00.0185995,32540,1
CarryFinding.ScenePlaced (correctness),Passed,00:00:00.0185108,50612,1
KeezenActions.CellNextJunction (correctness),Passed,00:00:00.0184414,36134,1
Cards.PermutationHead (well-formedness),Passed,00:00:00.0181231,9989,1
Common.PaddedDigits (well-formedness),Passed,00:00:00.0180221,24662,1
KeezenGame.KeepsFromHand (correctness),Passed,00:00:00.0179710,15233,1
KeezenGame.Earliest (well-formedness),Passed,00:00:00.0178833,28379,1
Layout.WaitField (well-formedness),Passed,00:00:00.0178755,54025,1
KeezenActions.TailDecoded (well-formedness),Passed,00:00:00.0178011,32653,1
CardOps.StopField (well-formedness),Passed,00:00:00.0176409,29419,1
Paths.MejnAllowed (well-formedness),Passed,00:00:00.0176373,45215,1
Paths.WalkConcat (well-formedness),Passed,00:00:00.0174219,25164,1
KeezenGame.ValuesDistinct (well-formedness),Passed,00:00:00.0173715,21499,1
CardOps.Leg (well-formedness),Passed,00:00:00.0171083,38202,1
BoardState.MarblesWithColor (well-formedness),Passed,00:00:00.0170618,30415,1
Common.TwoDigits (well-formedness),Passed,00:00:00.0169556,28090,1
KeezenGame.AddsDistinct (well-formedness),Passed,00:00:00.0169376,24624,1
KeezenActions.CodeRest (well-formedness),Passed,00:00:00.0169273,39007,1
CarryFinding.SceneKinds (well-formedness),Passed,00:00:00.0169118,41443,1
Paths.WalkStep (well-formedness),Passed,00:00:00.0168936,24155,1
KeezenActions.Encode (well-formedness),Passed,00:00:00.0168674,43941,1
MejnActions.TableId (well-formedness),Passed,00:00:00.0167936,23177,1
KeezenActions.PathIndexInverse (well-formedness),Passed,00:00:00.0167355,33825,1
Cards.MultisetCancel (correctness),Passed,00:00:00.0167161,10608,1
CardOps.IsSwitchable (well-formedness),Passed,00:00:00.0166688,37781,1
KeezenDeal.ReceivedLater (well-formedness),Passed,00:00:00.0166549,18150,1
Paths.Walk (well-formedness),Passed,00:00:00.0166389,26385,1
KeezenActions.PathIndex (well-formedness),Passed,00:00:00.0165543,25790,1
Paths.ShiftChain (well-formedness),Passed,00:00:00.0164521,29045,1
BoardState.WaitFieldOfColor (correctness),Passed,00:00:00.0164306,57661,1
KeezenGame.KeepsCovers (well-formedness),Passed,00:00:00.0163593,25732,1
KeezenPaths.RingStep (correctness),Passed,00:00:00.0162295,11606,1
MejnActions.TableEnd (well-formedness),Passed,00:00:00.0161722,37454,1
BoardState.Cover4 (correctness),Passed,00:00:00.0161647,60468,1
KeezenActions.Gap (well-formedness),Passed,00:00:00.0161472,14623,1
BoardState.WaitOccupantOf (correctness),Passed,00:00:00.0161241,38498,1
KeezenActions.CellNextHome (correctness),Passed,00:00:00.0161064,47284,1
Paths.WalkStep (correctness),Passed,00:00:00.0160321,25907,1
KeezenActions.BeyondStep (well-formedness),Passed,00:00:00.0160117,15525,1
KeezenActions.CellIndex (well-formedness),Passed,00:00:00.0159961,18791,1
Seats.StandardTeams (well-formedness),Passed,00:00:00.0159909,9958,1
KeezenActions.CellNextLast (well-formedness),Passed,00:00:00.0159360,28846,1
KeezenActions.BeyondStep (correctness),Passed,00:00:00.0158610,25308,1
KeezenActions.OnPath (correctness),Passed,00:00:00.0158096,41504,1
BoardState.WaitFieldOfColor (well-formedness),Passed,00:00:00.0156614,25193,1
BoardState.FieldOfOnInjective (well-formedness),Passed,00:00:00.0155866,28064,1
Layout.StartField (well-formedness),Passed,00:00:00.0155549,26774,1
MejnActions.TableBack (well-formedness),Passed,00:00:00.0153647,37485,1
Layout.FieldParts (correctness),Passed,00:00:00.0153257,30198,1
Common.DigitChar (correctness),Passed,00:00:00.0153059,32236,1
KeezenPaths.FourHops (well-formedness),Passed,00:00:00.0151975,24022,1
CarryFinding.B0 (well-formedness),Passed,00:00:00.0150466,4639,1
Layout.AdjacencySymmetric (correctness),Passed,00:00:00.0150299,28503,1
CarryFinding.FiveHops (well-formedness),Passed,00:00:00.0148651,24367,1
KeezenBoard.RunBound (well-formedness),Passed,00:00:00.0147208,35449,1
KeezenActions.CellNextHome (well-formedness),Passed,00:00:00.0146360,27689,1
KeezenActions.LaterGap (correctness),Passed,00:00:00.0146051,14948,1
Common.Abs (well-formedness),Passed,00:00:00.0145327,6705,1
Cards.CardCount (well-formedness),Passed,00:00:00.0145301,19305,1
MejnGame.Die (well-formedness),Passed,00:00:00.0145093,3678,1
KeezenActions.AheadOrder (well-formedness),Passed,00:00:00.0141725,10860,1
Cards.IndexOf (well-formedness),Passed,00:00:00.0140075,33439,1
Cards.Balance (correctness),Passed,00:00:00.0137848,19789,1
KeezenGame.CoversValues (well-formedness),Passed,00:00:00.0135558,24107,1
BoardState.Injective (well-formedness),Passed,00:00:00.0135489,17351,1
BoardState.WaitOccupantOf (well-formedness),Passed,00:00:00.0134165,26027,1
Layout.Index (well-formedness),Passed,00:00:00.0133515,7665,1
Cards.FlattenUpdate (well-formedness),Passed,00:00:00.0132530,19779,1
KeezenActions.CellIndexInverse (well-formedness),Passed,00:00:00.0132412,21665,1
Rules.MakeRules (well-formedness),Passed,00:00:00.0132238,12844,1
Common.Min (well-formedness),Passed,00:00:00.0132215,15210,1
Common.StepBackUndoesRecord (correctness),Passed,00:00:00.0129202,25888,1
KeezenActions.TrackStep (well-formedness),Passed,00:00:00.0127754,34366,1
KeezenActions.CellNextTrack (well-formedness),Passed,00:00:00.0126359,27092,1
KeezenActions.Valid (well-formedness),Passed,00:00:00.0125769,30416,1
KeezenActions.AheadZero (well-formedness),Passed,00:00:00.0125616,11077,1
KeezenActions.Cell (well-formedness),Passed,00:00:00.0122268,21345,1
KeezenActions.Later (well-formedness),Passed,00:00:00.0121606,16460,1
Layout.WaitBase (well-formedness),Passed,00:00:00.0121459,7130,1
KeezenActions.HomeNext (correctness),Passed,00:00:00.0118353,20184,1
BoardState.Cover4 (well-formedness),Passed,00:00:00.0118160,11604,1
Paths.Backwards (well-formedness),Passed,00:00:00.0115238,17246,1
KeezenActions.DecodeTail (well-formedness),Passed,00:00:00.0114852,25920,1
Cards.PermutationHead (correctness),Passed,00:00:00.0112679,12352,1
Layout.NumFields (well-formedness),Passed,00:00:00.0112192,7472,1
MejnActions.TableCode (well-formedness),Passed,00:00:00.0110385,23152,1
KeezenGame.NoFallbackFits (correctness),Passed,00:00:00.0108058,17708,1
BoardState.MarbleAt (well-formedness),Passed,00:00:00.0107634,20364,1
KeezenActions.Ahead (well-formedness),Passed,00:00:00.0106927,25351,1
KeezenStep.ColoursOk (well-formedness),Passed,00:00:00.0106599,14186,1
Rules.CardsPerRound (well-formedness),Passed,00:00:00.0105560,4426,1
Common.Last (well-formedness),Passed,00:00:00.0104694,5120,1
Paths.IsChain (well-formedness),Passed,00:00:00.0104301,24597,1
KeezenGame.FlattenNil (well-formedness),Passed,00:00:00.0102246,11989,1
Cards.ShuffleStep (well-formedness),Passed,00:00:00.0101872,19686,1
KeezenActions.SameCell (correctness),Passed,00:00:00.0101128,18148,1
Layout.LastTrack (well-formedness),Passed,00:00:00.0099634,7134,1
Common.Digit (well-formedness),Passed,00:00:00.0099033,12810,1
Cards.MultisetAdd (correctness),Passed,00:00:00.0098804,13532,1
Seats.FourSeatCycle (well-formedness),Passed,00:00:00.0096702,13551,1
CardOps.ValidChoice (well-formedness),Passed,00:00:00.0094868,13007,1
CarryFinding.Scene (well-formedness),Passed,00:00:00.0093906,10777,1
KeezenDeal.EvenShares (correctness),Passed,00:00:00.0090378,10800,1
KeezenGame.AddsFromHand (correctness),Passed,00:00:00.0088287,16032,1
Cards.Flatten (well-formedness),Passed,00:00:00.0085710,12702,1
Seats.FourSeatCycle (correctness),Passed,00:00:00.0084677,9225,1
Seats.NextThenPrev (well-formedness),Passed,00:00:00.0084380,7202,1
MejnGame.NoMove (well-formedness),Passed,00:00:00.0084072,11136,1
Layout.Block (well-formedness),Passed,00:00:00.0083401,6688,1
Cards.SmallMod (well-formedness),Passed,00:00:00.0080807,3986,1
Cards.SmallMod (correctness),Passed,00:00:00.0080361,9440,1
Common.DigitRoundTrip (well-formedness),Passed,00:00:00.0080033,12846,1
Common.DigitChar (well-formedness),Passed,00:00:00.0079368,13357,1
KeezenActions.AheadIsCount (well-formedness),Passed,00:00:00.0078349,12819,1
KeezenActions.ValidTail (well-formedness),Passed,00:00:00.0077526,8859,1
KeezenActions.LaterGap (well-formedness),Passed,00:00:00.0073312,6592,1
KeezenDeal.EvenShares (well-formedness),Passed,00:00:00.0071861,5978,1
KeezenStep.NextRound (well-formedness),Passed,00:00:00.0071542,4298,1
Layout.NumPlayers (well-formedness),Passed,00:00:00.0071428,3753,1
Rules.PlayerStart (well-formedness),Passed,00:00:00.0070113,3753,1
Layout.Quarter (correctness),Passed,00:00:00.0069514,11645,1
Layout.Color (well-formedness),Passed,00:00:00.0067685,3671,1
Paths.At (well-formedness),Passed,00:00:00.0067555,6509,1
KeezenStep.NextRound (correctness),Passed,00:00:00.0067423,12934,1
Common.DigitValue (well-formedness),Passed,00:00:00.0067326,9362,1
CarryFinding.G3 (well-formedness),Passed,00:00:00.0066083,4641,1
KeezenActions.Beyond (well-formedness),Passed,00:00:00.0064735,9141,1
Layout.MarblesPerColor (well-formedness),Passed,00:00:00.0062984,3753,1
Layout.Quarter (well-formedness),Passed,00:00:00.0061043,5243,1
Layout.BlockSize (well-formedness),Passed,00:00:00.0060312,6243,1
